/** What a steering tag allows: mem_stag_location once the descriptor has been found. */
module Stags {
  import opened MpaLayout

  /** The part of stag_desc_t that placement looks at; addresses from start to end - 1. */
  datatype Stag = Stag(start: nat, end: nat, read: bool, write: bool)

  predicate Allows(sd: Stag, read: bool, write: bool) { (read ==> sd.read) && (write ==> sd.write) }

  /** What a grant is for: the range lies inside the tag. */
  predicate Grants(sd: Stag, off: nat, len: nat, read: bool, write: bool) {
    && Allows(sd, read, write)
    && sd.start <= off < sd.end
    && off + len <= sd.end
  }

  predicate Holds(sd: Stag, a: nat) { sd.start <= a < sd.end }

  /** Then every byte of the range does, and access is never widened. */
  lemma GrantedInside(sd: Stag, off: nat, len: nat, read: bool, write: bool)
    ensures Grants(sd, off, len, read, write) <==>
            && Holds(sd, off) && (forall a :: off <= a < off + len ==> Holds(sd, a))
            && (read ==> sd.read) && (write ==> sd.write)
  {
    if len > 0 && (forall a :: off <= a < off + len ==> Holds(sd, a)) {
      assert Holds(sd, off + len - 1);
    }
  }

  /** The source's test, in which off + len is a size_t. */
  predicate Located(sd: Stag, off: nat, len: nat, read: bool, write: bool) {
    && Allows(sd, read, write)
    && sd.start <= off < sd.end
    && sd.start <= SizeT(off + len) <= sd.end
  }

  /** The sum wraps around, and far enough to come out inside the tag again. */
  predicate Slips(sd: Stag, off: nat, len: nat, read: bool, write: bool) {
    Allows(sd, read, write) && sd.start <= off < sd.end && off + len >= TWO64 + sd.start
  }

  lemma Sum64(x: nat)
    requires x < 2 * TWO64
    ensures SizeT(x) == if x < TWO64 then x else x - TWO64
  {
  }

  /** The test grants the ranges inside the tag and those for which the sum slips through; it
      is right exactly when the sum does not. */
  lemma LocatedExact(sd: Stag, off: nat, len: nat, read: bool, write: bool)
    requires sd.end < TWO64 && off < TWO64 && len < TWO64
    ensures Located(sd, off, len, read, write) <==> Grants(sd, off, len, read, write) || Slips(sd, off, len, read, write)
    ensures (Located(sd, off, len, read, write) <==> Grants(sd, off, len, read, write))
            <==> !Slips(sd, off, len, read, write)
  {
    hide SizeT;
    Sum64(off + len);
  }

  /** It does not for any length that memory can hold behind the tag. */
  lemma NoSlip(sd: Stag, off: nat, len: nat, read: bool, write: bool)
    requires sd.end + len <= TWO64
    ensures !Slips(sd, off, len, read, write)
  {
  }
}
