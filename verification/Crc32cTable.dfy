/** The CRC-32c table, and that each entry is eight reflected division steps by the Castagnoli
    polynomial. */
module Crc32cTable {
  const POLY: bv32 := 0x82F63B78

  function Mask(c: bv32): bv32 {
    if c & 1 == 1 then POLY else 0
  }

  function Half(c: bv32): bv32 {
    c >> 1
  }

  /** Addition of polynomials. */
  function Plus(a: bv32, b: bv32): bv32 {
    a ^ b
  }

  /** One step of reflected polynomial division. */
  function Step(c: bv32): bv32 {
    Plus(Half(c), Mask(c))
  }

  function Steps(c: bv32, n: nat): bv32
    decreases n
  {
    if n == 0 then c else Steps(Step(c), n - 1)
  }

  /** Eight steps, written out: a whole byte. */
  function Step8(c: bv32): bv32 {
    Step(Step(Step(Step(Step(Step(Step(Step(c))))))))
  }

  lemma TwoSteps(c: bv32, n: nat, d: bv32)
    requires n >= 2 && d == Step(Step(c))
    ensures Steps(c, n) == Steps(d, n - 2)
  {
    assert Steps(c, n) == Steps(Step(c), n - 1);
  }

  lemma StepsIsStep8(c: bv32)
    ensures Steps(c, 8) == Step8(c)
  {
    var d := Step(Step(c));
    var e := Step(Step(d));
    var f := Step(Step(e));
    TwoSteps(c, 8, d);
    TwoSteps(d, 6, e);
    TwoSteps(e, 4, f);
    TwoSteps(f, 2, Step(Step(f)));
  }

  function Row0(n: bv32): bv32 {
    if n == 0 then 0x00000000 else if n == 1 then 0xF26B8303 else if n == 2 then 0xE13B70F7 else if n == 3 then 0x1350F3F4 else
    if n == 4 then 0xC79A971F else if n == 5 then 0x35F1141C else if n == 6 then 0x26A1E7E8 else if n == 7 then 0xD4CA64EB else
    if n == 8 then 0x8AD958CF else if n == 9 then 0x78B2DBCC else if n == 10 then 0x6BE22838 else if n == 11 then 0x9989AB3B else
    if n == 12 then 0x4D43CFD0 else if n == 13 then 0xBF284CD3 else if n == 14 then 0xAC78BF27 else 0x5E133C24
  }

  function Row1(n: bv32): bv32 {
    if n == 0 then 0x105EC76F else if n == 1 then 0xE235446C else if n == 2 then 0xF165B798 else if n == 3 then 0x030E349B else
    if n == 4 then 0xD7C45070 else if n == 5 then 0x25AFD373 else if n == 6 then 0x36FF2087 else if n == 7 then 0xC494A384 else
    if n == 8 then 0x9A879FA0 else if n == 9 then 0x68EC1CA3 else if n == 10 then 0x7BBCEF57 else if n == 11 then 0x89D76C54 else
    if n == 12 then 0x5D1D08BF else if n == 13 then 0xAF768BBC else if n == 14 then 0xBC267848 else 0x4E4DFB4B
  }

  function Row2(n: bv32): bv32 {
    if n == 0 then 0x20BD8EDE else if n == 1 then 0xD2D60DDD else if n == 2 then 0xC186FE29 else if n == 3 then 0x33ED7D2A else
    if n == 4 then 0xE72719C1 else if n == 5 then 0x154C9AC2 else if n == 6 then 0x061C6936 else if n == 7 then 0xF477EA35 else
    if n == 8 then 0xAA64D611 else if n == 9 then 0x580F5512 else if n == 10 then 0x4B5FA6E6 else if n == 11 then 0xB93425E5 else
    if n == 12 then 0x6DFE410E else if n == 13 then 0x9F95C20D else if n == 14 then 0x8CC531F9 else 0x7EAEB2FA
  }

  function Row3(n: bv32): bv32 {
    if n == 0 then 0x30E349B1 else if n == 1 then 0xC288CAB2 else if n == 2 then 0xD1D83946 else if n == 3 then 0x23B3BA45 else
    if n == 4 then 0xF779DEAE else if n == 5 then 0x05125DAD else if n == 6 then 0x1642AE59 else if n == 7 then 0xE4292D5A else
    if n == 8 then 0xBA3A117E else if n == 9 then 0x4851927D else if n == 10 then 0x5B016189 else if n == 11 then 0xA96AE28A else
    if n == 12 then 0x7DA08661 else if n == 13 then 0x8FCB0562 else if n == 14 then 0x9C9BF696 else 0x6EF07595
  }

  function Row4(n: bv32): bv32 {
    if n == 0 then 0x417B1DBC else if n == 1 then 0xB3109EBF else if n == 2 then 0xA0406D4B else if n == 3 then 0x522BEE48 else
    if n == 4 then 0x86E18AA3 else if n == 5 then 0x748A09A0 else if n == 6 then 0x67DAFA54 else if n == 7 then 0x95B17957 else
    if n == 8 then 0xCBA24573 else if n == 9 then 0x39C9C670 else if n == 10 then 0x2A993584 else if n == 11 then 0xD8F2B687 else
    if n == 12 then 0x0C38D26C else if n == 13 then 0xFE53516F else if n == 14 then 0xED03A29B else 0x1F682198
  }

  function Row5(n: bv32): bv32 {
    if n == 0 then 0x5125DAD3 else if n == 1 then 0xA34E59D0 else if n == 2 then 0xB01EAA24 else if n == 3 then 0x42752927 else
    if n == 4 then 0x96BF4DCC else if n == 5 then 0x64D4CECF else if n == 6 then 0x77843D3B else if n == 7 then 0x85EFBE38 else
    if n == 8 then 0xDBFC821C else if n == 9 then 0x2997011F else if n == 10 then 0x3AC7F2EB else if n == 11 then 0xC8AC71E8 else
    if n == 12 then 0x1C661503 else if n == 13 then 0xEE0D9600 else if n == 14 then 0xFD5D65F4 else 0x0F36E6F7
  }

  function Row6(n: bv32): bv32 {
    if n == 0 then 0x61C69362 else if n == 1 then 0x93AD1061 else if n == 2 then 0x80FDE395 else if n == 3 then 0x72966096 else
    if n == 4 then 0xA65C047D else if n == 5 then 0x5437877E else if n == 6 then 0x4767748A else if n == 7 then 0xB50CF789 else
    if n == 8 then 0xEB1FCBAD else if n == 9 then 0x197448AE else if n == 10 then 0x0A24BB5A else if n == 11 then 0xF84F3859 else
    if n == 12 then 0x2C855CB2 else if n == 13 then 0xDEEEDFB1 else if n == 14 then 0xCDBE2C45 else 0x3FD5AF46
  }

  function Row7(n: bv32): bv32 {
    if n == 0 then 0x7198540D else if n == 1 then 0x83F3D70E else if n == 2 then 0x90A324FA else if n == 3 then 0x62C8A7F9 else
    if n == 4 then 0xB602C312 else if n == 5 then 0x44694011 else if n == 6 then 0x5739B3E5 else if n == 7 then 0xA55230E6 else
    if n == 8 then 0xFB410CC2 else if n == 9 then 0x092A8FC1 else if n == 10 then 0x1A7A7C35 else if n == 11 then 0xE811FF36 else
    if n == 12 then 0x3CDB9BDD else if n == 13 then 0xCEB018DE else if n == 14 then 0xDDE0EB2A else 0x2F8B6829
  }

  function Row8(n: bv32): bv32 {
    if n == 0 then 0x82F63B78 else if n == 1 then 0x709DB87B else if n == 2 then 0x63CD4B8F else if n == 3 then 0x91A6C88C else
    if n == 4 then 0x456CAC67 else if n == 5 then 0xB7072F64 else if n == 6 then 0xA457DC90 else if n == 7 then 0x563C5F93 else
    if n == 8 then 0x082F63B7 else if n == 9 then 0xFA44E0B4 else if n == 10 then 0xE9141340 else if n == 11 then 0x1B7F9043 else
    if n == 12 then 0xCFB5F4A8 else if n == 13 then 0x3DDE77AB else if n == 14 then 0x2E8E845F else 0xDCE5075C
  }

  function Row9(n: bv32): bv32 {
    if n == 0 then 0x92A8FC17 else if n == 1 then 0x60C37F14 else if n == 2 then 0x73938CE0 else if n == 3 then 0x81F80FE3 else
    if n == 4 then 0x55326B08 else if n == 5 then 0xA759E80B else if n == 6 then 0xB4091BFF else if n == 7 then 0x466298FC else
    if n == 8 then 0x1871A4D8 else if n == 9 then 0xEA1A27DB else if n == 10 then 0xF94AD42F else if n == 11 then 0x0B21572C else
    if n == 12 then 0xDFEB33C7 else if n == 13 then 0x2D80B0C4 else if n == 14 then 0x3ED04330 else 0xCCBBC033
  }

  function RowA(n: bv32): bv32 {
    if n == 0 then 0xA24BB5A6 else if n == 1 then 0x502036A5 else if n == 2 then 0x4370C551 else if n == 3 then 0xB11B4652 else
    if n == 4 then 0x65D122B9 else if n == 5 then 0x97BAA1BA else if n == 6 then 0x84EA524E else if n == 7 then 0x7681D14D else
    if n == 8 then 0x2892ED69 else if n == 9 then 0xDAF96E6A else if n == 10 then 0xC9A99D9E else if n == 11 then 0x3BC21E9D else
    if n == 12 then 0xEF087A76 else if n == 13 then 0x1D63F975 else if n == 14 then 0x0E330A81 else 0xFC588982
  }

  function RowB(n: bv32): bv32 {
    if n == 0 then 0xB21572C9 else if n == 1 then 0x407EF1CA else if n == 2 then 0x532E023E else if n == 3 then 0xA145813D else
    if n == 4 then 0x758FE5D6 else if n == 5 then 0x87E466D5 else if n == 6 then 0x94B49521 else if n == 7 then 0x66DF1622 else
    if n == 8 then 0x38CC2A06 else if n == 9 then 0xCAA7A905 else if n == 10 then 0xD9F75AF1 else if n == 11 then 0x2B9CD9F2 else
    if n == 12 then 0xFF56BD19 else if n == 13 then 0x0D3D3E1A else if n == 14 then 0x1E6DCDEE else 0xEC064EED
  }

  function RowC(n: bv32): bv32 {
    if n == 0 then 0xC38D26C4 else if n == 1 then 0x31E6A5C7 else if n == 2 then 0x22B65633 else if n == 3 then 0xD0DDD530 else
    if n == 4 then 0x0417B1DB else if n == 5 then 0xF67C32D8 else if n == 6 then 0xE52CC12C else if n == 7 then 0x1747422F else
    if n == 8 then 0x49547E0B else if n == 9 then 0xBB3FFD08 else if n == 10 then 0xA86F0EFC else if n == 11 then 0x5A048DFF else
    if n == 12 then 0x8ECEE914 else if n == 13 then 0x7CA56A17 else if n == 14 then 0x6FF599E3 else 0x9D9E1AE0
  }

  function RowD(n: bv32): bv32 {
    if n == 0 then 0xD3D3E1AB else if n == 1 then 0x21B862A8 else if n == 2 then 0x32E8915C else if n == 3 then 0xC083125F else
    if n == 4 then 0x144976B4 else if n == 5 then 0xE622F5B7 else if n == 6 then 0xF5720643 else if n == 7 then 0x07198540 else
    if n == 8 then 0x590AB964 else if n == 9 then 0xAB613A67 else if n == 10 then 0xB831C993 else if n == 11 then 0x4A5A4A90 else
    if n == 12 then 0x9E902E7B else if n == 13 then 0x6CFBAD78 else if n == 14 then 0x7FAB5E8C else 0x8DC0DD8F
  }

  function RowE(n: bv32): bv32 {
    if n == 0 then 0xE330A81A else if n == 1 then 0x115B2B19 else if n == 2 then 0x020BD8ED else if n == 3 then 0xF0605BEE else
    if n == 4 then 0x24AA3F05 else if n == 5 then 0xD6C1BC06 else if n == 6 then 0xC5914FF2 else if n == 7 then 0x37FACCF1 else
    if n == 8 then 0x69E9F0D5 else if n == 9 then 0x9B8273D6 else if n == 10 then 0x88D28022 else if n == 11 then 0x7AB90321 else
    if n == 12 then 0xAE7367CA else if n == 13 then 0x5C18E4C9 else if n == 14 then 0x4F48173D else 0xBD23943E
  }

  function RowF(n: bv32): bv32 {
    if n == 0 then 0xF36E6F75 else if n == 1 then 0x0105EC76 else if n == 2 then 0x12551F82 else if n == 3 then 0xE03E9C81 else
    if n == 4 then 0x34F4F86A else if n == 5 then 0xC69F7B69 else if n == 6 then 0xD5CF889D else if n == 7 then 0x27A40B9E else
    if n == 8 then 0x79B737BA else if n == 9 then 0x8BDCB4B9 else if n == 10 then 0x988C474D else if n == 11 then 0x6AE7C44E else
    if n == 12 then 0xBE2DA0A5 else if n == 13 then 0x4C4623A6 else if n == 14 then 0x5F16D052 else 0xAD7D5351
  }

  /** The table, entry by entry. */
  function Table(i: bv32): bv32
    requires i < 256
  {
    if i >> 4 == 0 then Row0(i & 15)
    else if i >> 4 == 1 then Row1(i & 15)
    else if i >> 4 == 2 then Row2(i & 15)
    else if i >> 4 == 3 then Row3(i & 15)
    else if i >> 4 == 4 then Row4(i & 15)
    else if i >> 4 == 5 then Row5(i & 15)
    else if i >> 4 == 6 then Row6(i & 15)
    else if i >> 4 == 7 then Row7(i & 15)
    else if i >> 4 == 8 then Row8(i & 15)
    else if i >> 4 == 9 then Row9(i & 15)
    else if i >> 4 == 10 then RowA(i & 15)
    else if i >> 4 == 11 then RowB(i & 15)
    else if i >> 4 == 12 then RowC(i & 15)
    else if i >> 4 == 13 then RowD(i & 15)
    else if i >> 4 == 14 then RowE(i & 15)
    else RowF(i & 15)
  }

  lemma Row0IsSteps(n: bv32)
    requires n < 16
    ensures Row0(n) == Step8(0x00 | n)
  {
  }

  lemma Row1IsSteps(n: bv32)
    requires n < 16
    ensures Row1(n) == Step8(0x10 | n)
  {
  }

  lemma Row2IsSteps(n: bv32)
    requires n < 16
    ensures Row2(n) == Step8(0x20 | n)
  {
  }

  lemma Row3IsSteps(n: bv32)
    requires n < 16
    ensures Row3(n) == Step8(0x30 | n)
  {
  }

  lemma Row4IsSteps(n: bv32)
    requires n < 16
    ensures Row4(n) == Step8(0x40 | n)
  {
  }

  lemma Row5IsSteps(n: bv32)
    requires n < 16
    ensures Row5(n) == Step8(0x50 | n)
  {
  }

  lemma Row6IsSteps(n: bv32)
    requires n < 16
    ensures Row6(n) == Step8(0x60 | n)
  {
  }

  lemma Row7IsSteps(n: bv32)
    requires n < 16
    ensures Row7(n) == Step8(0x70 | n)
  {
  }

  lemma Row8IsSteps(n: bv32)
    requires n < 16
    ensures Row8(n) == Step8(0x80 | n)
  {
  }

  lemma Row9IsSteps(n: bv32)
    requires n < 16
    ensures Row9(n) == Step8(0x90 | n)
  {
  }

  lemma RowAIsSteps(n: bv32)
    requires n < 16
    ensures RowA(n) == Step8(0xA0 | n)
  {
  }

  lemma RowBIsSteps(n: bv32)
    requires n < 16
    ensures RowB(n) == Step8(0xB0 | n)
  {
  }

  lemma RowCIsSteps(n: bv32)
    requires n < 16
    ensures RowC(n) == Step8(0xC0 | n)
  {
  }

  lemma RowDIsSteps(n: bv32)
    requires n < 16
    ensures RowD(n) == Step8(0xD0 | n)
  {
  }

  lemma RowEIsSteps(n: bv32)
    requires n < 16
    ensures RowE(n) == Step8(0xE0 | n)
  {
  }

  lemma RowFIsSteps(n: bv32)
    requires n < 16
    ensures RowF(n) == Step8(0xF0 | n)
  {
  }

  lemma TableIsStep8(i: bv32)
    requires i < 256
    ensures Table(i) == Step8(i)
  {
    if i >> 4 == 0 {
      Row0IsSteps(i & 15);
      assert 0x00 | (i & 15) == i;
    } else if i >> 4 == 1 {
      Row1IsSteps(i & 15);
      assert 0x10 | (i & 15) == i;
    } else if i >> 4 == 2 {
      Row2IsSteps(i & 15);
      assert 0x20 | (i & 15) == i;
    } else if i >> 4 == 3 {
      Row3IsSteps(i & 15);
      assert 0x30 | (i & 15) == i;
    } else if i >> 4 == 4 {
      Row4IsSteps(i & 15);
      assert 0x40 | (i & 15) == i;
    } else if i >> 4 == 5 {
      Row5IsSteps(i & 15);
      assert 0x50 | (i & 15) == i;
    } else if i >> 4 == 6 {
      Row6IsSteps(i & 15);
      assert 0x60 | (i & 15) == i;
    } else if i >> 4 == 7 {
      Row7IsSteps(i & 15);
      assert 0x70 | (i & 15) == i;
    } else if i >> 4 == 8 {
      Row8IsSteps(i & 15);
      assert 0x80 | (i & 15) == i;
    } else if i >> 4 == 9 {
      Row9IsSteps(i & 15);
      assert 0x90 | (i & 15) == i;
    } else if i >> 4 == 10 {
      RowAIsSteps(i & 15);
      assert 0xA0 | (i & 15) == i;
    } else if i >> 4 == 11 {
      RowBIsSteps(i & 15);
      assert 0xB0 | (i & 15) == i;
    } else if i >> 4 == 12 {
      RowCIsSteps(i & 15);
      assert 0xC0 | (i & 15) == i;
    } else if i >> 4 == 13 {
      RowDIsSteps(i & 15);
      assert 0xD0 | (i & 15) == i;
    } else if i >> 4 == 14 {
      RowEIsSteps(i & 15);
      assert 0xE0 | (i & 15) == i;
    } else {
      RowFIsSteps(i & 15);
      assert 0xF0 | (i & 15) == i;
    }
  }

  /** Every table entry is eight division steps of its index. */
  lemma TableIsSteps(i: bv32)
    requires i < 256
    ensures Table(i) == Steps(i, 8)
  {
    TableIsStep8(i);
    StepsIsStep8(i);
  }
}
