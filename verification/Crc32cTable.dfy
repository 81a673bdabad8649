/** The 256-entry table of iwarp/crc32c.c, sixteen entries a row, and the proof that
    every entry is eight steps of the bit-serial division. */
module Crc32cTable {

  /** The generator 0x1EDC6F41 with its bits in reverse order. */
  const POLY: bv32 := 0x82F63B78

  // The machine operations are named so that the proofs below can treat them by law.

  function Xor(a: bv32, b: bv32): bv32 { a ^ b }

  function Half(a: bv32): bv32 { a >> 1 }

  predicate Odd(a: bv32) { a & 1 == 1 }

  lemma XorComm(a: bv32, b: bv32)
    ensures Xor(a, b) == Xor(b, a)
  {
  }

  lemma XorAssoc(a: bv32, b: bv32, c: bv32)
    ensures Xor(Xor(a, b), c) == Xor(a, Xor(b, c))
  {
  }

  lemma XorSelf(a: bv32, b: bv32)
    ensures Xor(Xor(a, b), b) == a && Xor(b, b) == 0 && Xor(a, 0) == a == Xor(0, a)
  {
  }

  lemma XorZero(a: bv32, b: bv32)
    requires Xor(a, b) == 0
    ensures a == b
  {
  }

  lemma XorSwap(a: bv32, b: bv32, c: bv32)
    ensures Xor(Xor(a, b), c) == Xor(Xor(a, c), b)
    ensures Xor(Xor(a, c), Xor(b, c)) == Xor(a, b)
  {
    hide Xor;
    XorAssoc(a, b, c);
    XorComm(b, c);
    XorAssoc(a, c, b);
    XorAssoc(a, c, Xor(b, c));
    XorSelf(b, c);
    XorComm(c, Xor(b, c));
  }

  // ----- the bit-serial division -----

  /** One step of the reflected division by the generator. */
  function Shift(c: bv32): bv32 {
    if Odd(c) then Xor(Half(c), POLY) else Half(c)
  }

  function Shift8(c: bv32): bv32 {
    Shift(Shift(Shift(Shift(Shift(Shift(Shift(Shift(c))))))))
  }

  lemma HalfXor(a: bv32, b: bv32)
    ensures Half(Xor(a, b)) == Xor(Half(a), Half(b))
  {
  }

  lemma OddXor(a: bv32, b: bv32)
    ensures Odd(Xor(a, b)) <==> (Odd(a) != Odd(b))
  {
  }

  lemma ShiftLinear(a: bv32, b: bv32)
    ensures Shift(Xor(a, b)) == Xor(Shift(a), Shift(b))
  {
    hide Xor, Half, Odd;
    HalfXor(a, b);
    OddXor(a, b);
    XorSwap(Half(a), Half(b), POLY);
    XorAssoc(Half(a), Half(b), POLY);
  }

  lemma Shift8Linear(a: bv32, b: bv32)
    ensures Shift8(Xor(a, b)) == Xor(Shift8(a), Shift8(b))
  {
    hide Shift, Xor;
    var a1, b1 := Shift(a), Shift(b);
    var a2, b2 := Shift(a1), Shift(b1);
    var a3, b3 := Shift(a2), Shift(b2);
    var a4, b4 := Shift(a3), Shift(b3);
    var a5, b5 := Shift(a4), Shift(b4);
    var a6, b6 := Shift(a5), Shift(b5);
    var a7, b7 := Shift(a6), Shift(b6);
    ShiftLinear(a, b);
    ShiftLinear(a1, b1);
    ShiftLinear(a2, b2);
    ShiftLinear(a3, b3);
    ShiftLinear(a4, b4);
    ShiftLinear(a5, b5);
    ShiftLinear(a6, b6);
    ShiftLinear(a7, b7);
  }

  // ----- the table -----

  function Row0(l: bv32): bv32 {
    match l
    case 0 => 0x00000000 case 1 => 0xF26B8303 case 2 => 0xE13B70F7 case 3 => 0x1350F3F4
    case 4 => 0xC79A971F case 5 => 0x35F1141C case 6 => 0x26A1E7E8 case 7 => 0xD4CA64EB
    case 8 => 0x8AD958CF case 9 => 0x78B2DBCC case 10 => 0x6BE22838 case 11 => 0x9989AB3B
    case 12 => 0x4D43CFD0 case 13 => 0xBF284CD3 case 14 => 0xAC78BF27 case _ => 0x5E133C24
  }

  function Row1(l: bv32): bv32 {
    match l
    case 0 => 0x105EC76F case 1 => 0xE235446C case 2 => 0xF165B798 case 3 => 0x030E349B
    case 4 => 0xD7C45070 case 5 => 0x25AFD373 case 6 => 0x36FF2087 case 7 => 0xC494A384
    case 8 => 0x9A879FA0 case 9 => 0x68EC1CA3 case 10 => 0x7BBCEF57 case 11 => 0x89D76C54
    case 12 => 0x5D1D08BF case 13 => 0xAF768BBC case 14 => 0xBC267848 case _ => 0x4E4DFB4B
  }

  function Row2(l: bv32): bv32 {
    match l
    case 0 => 0x20BD8EDE case 1 => 0xD2D60DDD case 2 => 0xC186FE29 case 3 => 0x33ED7D2A
    case 4 => 0xE72719C1 case 5 => 0x154C9AC2 case 6 => 0x061C6936 case 7 => 0xF477EA35
    case 8 => 0xAA64D611 case 9 => 0x580F5512 case 10 => 0x4B5FA6E6 case 11 => 0xB93425E5
    case 12 => 0x6DFE410E case 13 => 0x9F95C20D case 14 => 0x8CC531F9 case _ => 0x7EAEB2FA
  }

  function Row3(l: bv32): bv32 {
    match l
    case 0 => 0x30E349B1 case 1 => 0xC288CAB2 case 2 => 0xD1D83946 case 3 => 0x23B3BA45
    case 4 => 0xF779DEAE case 5 => 0x05125DAD case 6 => 0x1642AE59 case 7 => 0xE4292D5A
    case 8 => 0xBA3A117E case 9 => 0x4851927D case 10 => 0x5B016189 case 11 => 0xA96AE28A
    case 12 => 0x7DA08661 case 13 => 0x8FCB0562 case 14 => 0x9C9BF696 case _ => 0x6EF07595
  }

  function Row4(l: bv32): bv32 {
    match l
    case 0 => 0x417B1DBC case 1 => 0xB3109EBF case 2 => 0xA0406D4B case 3 => 0x522BEE48
    case 4 => 0x86E18AA3 case 5 => 0x748A09A0 case 6 => 0x67DAFA54 case 7 => 0x95B17957
    case 8 => 0xCBA24573 case 9 => 0x39C9C670 case 10 => 0x2A993584 case 11 => 0xD8F2B687
    case 12 => 0x0C38D26C case 13 => 0xFE53516F case 14 => 0xED03A29B case _ => 0x1F682198
  }

  function Row5(l: bv32): bv32 {
    match l
    case 0 => 0x5125DAD3 case 1 => 0xA34E59D0 case 2 => 0xB01EAA24 case 3 => 0x42752927
    case 4 => 0x96BF4DCC case 5 => 0x64D4CECF case 6 => 0x77843D3B case 7 => 0x85EFBE38
    case 8 => 0xDBFC821C case 9 => 0x2997011F case 10 => 0x3AC7F2EB case 11 => 0xC8AC71E8
    case 12 => 0x1C661503 case 13 => 0xEE0D9600 case 14 => 0xFD5D65F4 case _ => 0x0F36E6F7
  }

  function Row6(l: bv32): bv32 {
    match l
    case 0 => 0x61C69362 case 1 => 0x93AD1061 case 2 => 0x80FDE395 case 3 => 0x72966096
    case 4 => 0xA65C047D case 5 => 0x5437877E case 6 => 0x4767748A case 7 => 0xB50CF789
    case 8 => 0xEB1FCBAD case 9 => 0x197448AE case 10 => 0x0A24BB5A case 11 => 0xF84F3859
    case 12 => 0x2C855CB2 case 13 => 0xDEEEDFB1 case 14 => 0xCDBE2C45 case _ => 0x3FD5AF46
  }

  function Row7(l: bv32): bv32 {
    match l
    case 0 => 0x7198540D case 1 => 0x83F3D70E case 2 => 0x90A324FA case 3 => 0x62C8A7F9
    case 4 => 0xB602C312 case 5 => 0x44694011 case 6 => 0x5739B3E5 case 7 => 0xA55230E6
    case 8 => 0xFB410CC2 case 9 => 0x092A8FC1 case 10 => 0x1A7A7C35 case 11 => 0xE811FF36
    case 12 => 0x3CDB9BDD case 13 => 0xCEB018DE case 14 => 0xDDE0EB2A case _ => 0x2F8B6829
  }

  function Row8(l: bv32): bv32 {
    match l
    case 0 => 0x82F63B78 case 1 => 0x709DB87B case 2 => 0x63CD4B8F case 3 => 0x91A6C88C
    case 4 => 0x456CAC67 case 5 => 0xB7072F64 case 6 => 0xA457DC90 case 7 => 0x563C5F93
    case 8 => 0x082F63B7 case 9 => 0xFA44E0B4 case 10 => 0xE9141340 case 11 => 0x1B7F9043
    case 12 => 0xCFB5F4A8 case 13 => 0x3DDE77AB case 14 => 0x2E8E845F case _ => 0xDCE5075C
  }

  function Row9(l: bv32): bv32 {
    match l
    case 0 => 0x92A8FC17 case 1 => 0x60C37F14 case 2 => 0x73938CE0 case 3 => 0x81F80FE3
    case 4 => 0x55326B08 case 5 => 0xA759E80B case 6 => 0xB4091BFF case 7 => 0x466298FC
    case 8 => 0x1871A4D8 case 9 => 0xEA1A27DB case 10 => 0xF94AD42F case 11 => 0x0B21572C
    case 12 => 0xDFEB33C7 case 13 => 0x2D80B0C4 case 14 => 0x3ED04330 case _ => 0xCCBBC033
  }

  function RowA(l: bv32): bv32 {
    match l
    case 0 => 0xA24BB5A6 case 1 => 0x502036A5 case 2 => 0x4370C551 case 3 => 0xB11B4652
    case 4 => 0x65D122B9 case 5 => 0x97BAA1BA case 6 => 0x84EA524E case 7 => 0x7681D14D
    case 8 => 0x2892ED69 case 9 => 0xDAF96E6A case 10 => 0xC9A99D9E case 11 => 0x3BC21E9D
    case 12 => 0xEF087A76 case 13 => 0x1D63F975 case 14 => 0x0E330A81 case _ => 0xFC588982
  }

  function RowB(l: bv32): bv32 {
    match l
    case 0 => 0xB21572C9 case 1 => 0x407EF1CA case 2 => 0x532E023E case 3 => 0xA145813D
    case 4 => 0x758FE5D6 case 5 => 0x87E466D5 case 6 => 0x94B49521 case 7 => 0x66DF1622
    case 8 => 0x38CC2A06 case 9 => 0xCAA7A905 case 10 => 0xD9F75AF1 case 11 => 0x2B9CD9F2
    case 12 => 0xFF56BD19 case 13 => 0x0D3D3E1A case 14 => 0x1E6DCDEE case _ => 0xEC064EED
  }

  function RowC(l: bv32): bv32 {
    match l
    case 0 => 0xC38D26C4 case 1 => 0x31E6A5C7 case 2 => 0x22B65633 case 3 => 0xD0DDD530
    case 4 => 0x0417B1DB case 5 => 0xF67C32D8 case 6 => 0xE52CC12C case 7 => 0x1747422F
    case 8 => 0x49547E0B case 9 => 0xBB3FFD08 case 10 => 0xA86F0EFC case 11 => 0x5A048DFF
    case 12 => 0x8ECEE914 case 13 => 0x7CA56A17 case 14 => 0x6FF599E3 case _ => 0x9D9E1AE0
  }

  function RowD(l: bv32): bv32 {
    match l
    case 0 => 0xD3D3E1AB case 1 => 0x21B862A8 case 2 => 0x32E8915C case 3 => 0xC083125F
    case 4 => 0x144976B4 case 5 => 0xE622F5B7 case 6 => 0xF5720643 case 7 => 0x07198540
    case 8 => 0x590AB964 case 9 => 0xAB613A67 case 10 => 0xB831C993 case 11 => 0x4A5A4A90
    case 12 => 0x9E902E7B case 13 => 0x6CFBAD78 case 14 => 0x7FAB5E8C case _ => 0x8DC0DD8F
  }

  function RowE(l: bv32): bv32 {
    match l
    case 0 => 0xE330A81A case 1 => 0x115B2B19 case 2 => 0x020BD8ED case 3 => 0xF0605BEE
    case 4 => 0x24AA3F05 case 5 => 0xD6C1BC06 case 6 => 0xC5914FF2 case 7 => 0x37FACCF1
    case 8 => 0x69E9F0D5 case 9 => 0x9B8273D6 case 10 => 0x88D28022 case 11 => 0x7AB90321
    case 12 => 0xAE7367CA case 13 => 0x5C18E4C9 case 14 => 0x4F48173D case _ => 0xBD23943E
  }

  function RowF(l: bv32): bv32 {
    match l
    case 0 => 0xF36E6F75 case 1 => 0x0105EC76 case 2 => 0x12551F82 case 3 => 0xE03E9C81
    case 4 => 0x34F4F86A case 5 => 0xC69F7B69 case 6 => 0xD5CF889D case 7 => 0x27A40B9E
    case 8 => 0x79B737BA case 9 => 0x8BDCB4B9 case 10 => 0x988C474D case 11 => 0x6AE7C44E
    case 12 => 0xBE2DA0A5 case 13 => 0x4C4623A6 case 14 => 0x5F16D052 case _ => 0xAD7D5351
  }

  function Row(k: bv32, l: bv32): bv32 {
    match k
    case 0 => Row0(l) case 1 => Row1(l) case 2 => Row2(l) case 3 => Row3(l)
    case 4 => Row4(l) case 5 => Row5(l) case 6 => Row6(l) case 7 => Row7(l)
    case 8 => Row8(l) case 9 => Row9(l) case 10 => RowA(l) case 11 => RowB(l)
    case 12 => RowC(l) case 13 => RowD(l) case 14 => RowE(l) case _ => RowF(l)
  }

  function Table(i: bv32): bv32 { Row(i >> 4, i & 15) }

  /** What one bit of a value below 16 contributes. */
  function Part(l: bv32, bit: bv32, v: bv32): bv32 { if l & bit == 0 then 0 else v }

  /** Eight steps on a value below 16, spelled out bit by bit. */
  function Low(l: bv32): bv32 {
    Xor(Xor(Part(l, 1, 0xF26B8303), Part(l, 2, 0xE13B70F7)), Xor(Part(l, 4, 0xC79A971F), Part(l, 8, 0x8AD958CF)))
  }

  lemma Powers()
    ensures Shift8(0) == 0 && Shift8(1) == 0xF26B8303 && Shift8(2) == 0xE13B70F7
    ensures Shift8(4) == 0xC79A971F && Shift8(8) == 0x8AD958CF
  {
  }

  lemma FourBits(l: bv32)
    requires l < 16
    ensures l == Xor(Xor(Part(l, 1, 1), Part(l, 2, 2)), Xor(Part(l, 4, 4), Part(l, 8, 8)))
  {
    assert l == 0 || l == 1 || l == 2 || l == 3 || l == 4 || l == 5 || l == 6 || l == 7
        || l == 8 || l == 9 || l == 10 || l == 11 || l == 12 || l == 13 || l == 14 || l == 15;
  }

  lemma ShiftPart(l: bv32, bit: bv32, v: bv32)
    ensures Shift8(Part(l, bit, v)) == Part(l, bit, Shift8(v))
  {
    hide Shift8;
    Powers();
  }

  lemma LowIsShift8(l: bv32)
    requires l < 16
    ensures Low(l) == Shift8(l)
  {
    hide Shift8, Xor, Part;
    FourBits(l);
    Powers();
    ShiftPart(l, 1, 1);
    ShiftPart(l, 2, 2);
    ShiftPart(l, 4, 4);
    ShiftPart(l, 8, 8);
    Shift8Linear(Part(l, 1, 1), Part(l, 2, 2));
    Shift8Linear(Part(l, 4, 4), Part(l, 8, 8));
    Shift8Linear(Xor(Part(l, 1, 1), Part(l, 2, 2)), Xor(Part(l, 4, 4), Part(l, 8, 8)));
  }

  lemma Row0Ok(l: bv32)
    requires l < 16
    ensures Row0(l) == Low(l)
  {
  }

  /** Eight steps on the upper four bits of an index. */
  lemma HighPowers()
    ensures Shift8(0x10) == 0x105EC76F && Shift8(0x20) == 0x20BD8EDE
    ensures Shift8(0x40) == 0x417B1DBC && Shift8(0x80) == 0x82F63B78
  {
  }

  lemma Row1Ok(l: bv32)
    requires l < 16
    ensures Row1(l) == Xor(0x105EC76F, Row0(l))
  {
  }

  lemma Row2Ok(l: bv32)
    requires l < 16
    ensures Row2(l) == Xor(0x20BD8EDE, Row0(l))
  {
  }

  lemma Row3Ok(l: bv32)
    requires l < 16
    ensures Row3(l) == Xor(0x30E349B1, Row0(l))
  {
  }

  lemma Row4Ok(l: bv32)
    requires l < 16
    ensures Row4(l) == Xor(0x417B1DBC, Row0(l))
  {
  }

  lemma Row5Ok(l: bv32)
    requires l < 16
    ensures Row5(l) == Xor(0x5125DAD3, Row0(l))
  {
  }

  lemma Row6Ok(l: bv32)
    requires l < 16
    ensures Row6(l) == Xor(0x61C69362, Row0(l))
  {
  }

  lemma Row7Ok(l: bv32)
    requires l < 16
    ensures Row7(l) == Xor(0x7198540D, Row0(l))
  {
  }

  lemma Row8Ok(l: bv32)
    requires l < 16
    ensures Row8(l) == Xor(0x82F63B78, Row0(l))
  {
  }

  lemma Row9Ok(l: bv32)
    requires l < 16
    ensures Row9(l) == Xor(0x92A8FC17, Row0(l))
  {
  }

  lemma RowAOk(l: bv32)
    requires l < 16
    ensures RowA(l) == Xor(0xA24BB5A6, Row0(l))
  {
  }

  lemma RowBOk(l: bv32)
    requires l < 16
    ensures RowB(l) == Xor(0xB21572C9, Row0(l))
  {
  }

  lemma RowCOk(l: bv32)
    requires l < 16
    ensures RowC(l) == Xor(0xC38D26C4, Row0(l))
  {
  }

  lemma RowDOk(l: bv32)
    requires l < 16
    ensures RowD(l) == Xor(0xD3D3E1AB, Row0(l))
  {
  }

  lemma RowEOk(l: bv32)
    requires l < 16
    ensures RowE(l) == Xor(0xE330A81A, Row0(l))
  {
  }

  lemma RowFOk(l: bv32)
    requires l < 16
    ensures RowF(l) == Xor(0xF36E6F75, Row0(l))
  {
  }

  /** The same for the upper half of an index. */
  function High(k: bv32): bv32 {
    Xor(Xor(Part(k, 1, 0x105EC76F), Part(k, 2, 0x20BD8EDE)), Xor(Part(k, 4, 0x417B1DBC), Part(k, 8, 0x82F63B78)))
  }

  lemma HighValues()
    ensures High(0) == 0x00000000 && High(1) == 0x105EC76F && High(2) == 0x20BD8EDE && High(3) == 0x30E349B1
    ensures High(4) == 0x417B1DBC && High(5) == 0x5125DAD3 && High(6) == 0x61C69362 && High(7) == 0x7198540D
    ensures High(8) == 0x82F63B78 && High(9) == 0x92A8FC17 && High(10) == 0xA24BB5A6 && High(11) == 0xB21572C9
    ensures High(12) == 0xC38D26C4 && High(13) == 0xD3D3E1AB && High(14) == 0xE330A81A && High(15) == 0xF36E6F75
  {
  }

  lemma FourHighBits(k: bv32)
    requires k < 16
    ensures k << 4 == Xor(Xor(Part(k, 1, 0x10), Part(k, 2, 0x20)), Xor(Part(k, 4, 0x40), Part(k, 8, 0x80)))
  {
    assert k == 0 || k == 1 || k == 2 || k == 3 || k == 4 || k == 5 || k == 6 || k == 7
        || k == 8 || k == 9 || k == 10 || k == 11 || k == 12 || k == 13 || k == 14 || k == 15;
  }

  lemma HighIsShift8(k: bv32)
    requires k < 16
    ensures High(k) == Shift8(k << 4)
  {
    hide Shift8, Xor, Part;
    FourHighBits(k);
    HighPowers();
    ShiftPart(k, 1, 0x10);
    ShiftPart(k, 2, 0x20);
    ShiftPart(k, 4, 0x40);
    ShiftPart(k, 8, 0x80);
    Shift8Linear(Part(k, 1, 0x10), Part(k, 2, 0x20));
    Shift8Linear(Part(k, 4, 0x40), Part(k, 8, 0x80));
    Shift8Linear(Xor(Part(k, 1, 0x10), Part(k, 2, 0x20)), Xor(Part(k, 4, 0x40), Part(k, 8, 0x80)));
  }

  lemma RowIs(k: bv32, l: bv32)
    requires k < 16 && l < 16
    ensures Row(k, l) == Xor(High(k), Row0(l))
  {
    hide High, Xor, Row0, Row1, Row2, Row3, Row4, Row5, Row6, Row7, Row8, Row9, RowA, RowB, RowC, RowD, RowE, RowF;
    HighValues();
    match k {
      case 0 => XorSelf(Row0(l), Row0(l));
      case 1 => Row1Ok(l);
      case 2 => Row2Ok(l);
      case 3 => Row3Ok(l);
      case 4 => Row4Ok(l);
      case 5 => Row5Ok(l);
      case 6 => Row6Ok(l);
      case 7 => Row7Ok(l);
      case 8 => Row8Ok(l);
      case 9 => Row9Ok(l);
      case 10 => RowAOk(l);
      case 11 => RowBOk(l);
      case 12 => RowCOk(l);
      case 13 => RowDOk(l);
      case 14 => RowEOk(l);
      case _ => RowFOk(l);
    }
  }

  /** Every entry of the table is eight bit-serial steps on its index. */
  lemma TableIsShift8(i: bv32)
    requires i < 256
    ensures Table(i) == Shift8(i)
  {
    hide Shift8, Low, High, Xor, Row, Row0;
    var k, l := i >> 4, i & 15;
    Nibbles(i);
    RowIs(k, l);
    Row0Ok(l);
    LowIsShift8(l);
    HighIsShift8(k);
    Shift8Linear(k << 4, l);
  }

  lemma Nibbles(i: bv32)
    requires i < 256
    ensures i == Xor((i >> 4) << 4, i & 15) && i & 15 < 16 && i >> 4 < 16
  {
  }
}
