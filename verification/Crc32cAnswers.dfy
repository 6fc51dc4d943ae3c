// Known answers of CRC-32C, from section B.4 of RFC 3720 and of the usual check string, and of its masked form.
module Crc32cAnswers {
  import opened Crc32c

  // "123456789", and the register before and after each of its bytes.
  const DIGITS: seq<bv8> := [0x31, 0x32, 0x33, 0x34, 0x35, 0x36, 0x37, 0x38, 0x39]
  const DIGIT_REGISTERS: seq<bv32> := [
    0xffffffff, 0x6f0a661c, 0x8caa3b9f, 0xef84d04d, 0x09c50b11, 0xe72edcca, 0xbeca8e79, 0xedbd6815,
    0x9f787f65, 0x1cf96d7c]

  // The register before and after each of 32 bytes of zeros.
  const ZERO_REGISTERS: seq<bv32> := [
    0xffffffff, 0xad82acae, 0x0e9e882d, 0x9f9b5c85, 0xb798b438, 0xba8d89ca, 0xa8d58375, 0x44c19592,
    0x73d74d75, 0x441a975c, 0x1c220f94, 0x552e4907, 0xd49f4aa2, 0x43a45a1b, 0x8994c80e, 0xacf12bef,
    0xbd8f6515, 0x25125c16, 0x36da32db, 0x4a6c90a2, 0x433aa9c1, 0x31a59f6e, 0xcd8f89da, 0xb8fc461a,
    0x7b041311, 0xe24e407f, 0x2f692669, 0x195b2188, 0x08363896, 0xb4012dc7, 0x17f34302, 0xe12c83b4,
    0x756ec955]

  // The register after each byte of `data`, from its first value on.
  lemma {:induction false} RegistersAre(data: seq<bv8>, registers: seq<bv32>, n: nat)
    requires |registers| == |data| + 1 && n <= |data|
    requires forall k :: 0 <= k < |data| ==> registers[k + 1] == Step1(registers[k], data[k])
    ensures Register(registers[0], data[..n]) == registers[n]
  {
    hide Shift, Xor, Step1;
    if n > 0 {
      RegistersAre(data, registers, n - 1);
      assert data[..n][..n - 1] == data[..n - 1];
      Step1IsShift(registers[n - 1], data[n - 1]);
    }
  }

  // The checksum of "123456789".
  lemma ChecksumOfDigits()
    ensures Checksum(0, DIGITS) == 0xe3069283
  {
    Ends();
    DigitTables();
    hide Shift, Xor, Step1, Register, DIGITS, DIGIT_REGISTERS;
    forall k | 0 <= k < |DIGITS|
      ensures DIGIT_REGISTERS[k + 1] == Step1(DIGIT_REGISTERS[k], DIGITS[k])
    {
      DigitStep(k);
    }
    RegistersAre(DIGITS, DIGIT_REGISTERS, 9);
    assert DIGITS[..9] == DIGITS;
  }

  lemma DigitTables()
    ensures |DIGITS| == 9 && |DIGIT_REGISTERS| == 10
    ensures DIGIT_REGISTERS[0] == 0xffffffff && DIGIT_REGISTERS[9] == 0x1cf96d7c
  {}

  lemma DigitStep(k: nat)
    requires k < 9
    ensures |DIGITS| == 9 && |DIGIT_REGISTERS| == 10 && DIGIT_REGISTERS[k + 1] == Step1(DIGIT_REGISTERS[k], DIGITS[k])
  {
    DigitSteps();
    hide Step1;
  }

  lemma DigitSteps()
    ensures Step1(0xffffffff, 0x31) == 0x6f0a661c && Step1(0x6f0a661c, 0x32) == 0x8caa3b9f
    ensures Step1(0x8caa3b9f, 0x33) == 0xef84d04d && Step1(0xef84d04d, 0x34) == 0x09c50b11
    ensures Step1(0x09c50b11, 0x35) == 0xe72edcca && Step1(0xe72edcca, 0x36) == 0xbeca8e79
    ensures Step1(0xbeca8e79, 0x37) == 0xedbd6815 && Step1(0xedbd6815, 0x38) == 0x9f787f65
    ensures Step1(0x9f787f65, 0x39) == 0x1cf96d7c
  {}

  // The first and the last value of the register.
  lemma Ends()
    ensures Xor(0, ONES) == 0xffffffff && Xor(0x1cf96d7c, ONES) == 0xe3069283 && Xor(0x756ec955, ONES) == 0x8a9136aa
    ensures Xor(0xad82acae, ONES) == 0x527d5351
  {}

  // 32 bytes of zeros, and one.
  lemma ChecksumOfZeros()
    ensures Checksum(0, seq(32, _ => 0)) == 0x8a9136aa
    ensures Checksum(0, [0]) == 0x527d5351
  {
    Ends();
    ZeroTable();
    hide Shift, Xor, Step1, Register, ZERO_REGISTERS;
    var data: seq<bv8> := seq(32, _ => 0);
    forall k | 0 <= k < 32
      ensures ZERO_REGISTERS[k + 1] == Step1(ZERO_REGISTERS[k], data[k])
    {
      ZeroStep(k);
    }
    RegistersAre(data, ZERO_REGISTERS, 32);
    assert data[..32] == data;
    RegistersAre([0], ZERO_REGISTERS[..2], 1);
    assert [0 as bv8][..1] == [0];
  }

  lemma ZeroTable()
    ensures |ZERO_REGISTERS| == 33 && ZERO_REGISTERS[0] == 0xffffffff && ZERO_REGISTERS[1] == 0xad82acae
    ensures ZERO_REGISTERS[32] == 0x756ec955
  {}

  lemma ZeroStep(k: nat)
    requires k < 32
    ensures |ZERO_REGISTERS| == 33 && ZERO_REGISTERS[k + 1] == Step1(ZERO_REGISTERS[k], 0)
  {
    hide Step1;
    if k < 8 {
      ZeroSteps1();
    } else if k < 16 {
      ZeroSteps2();
    } else if k < 24 {
      ZeroSteps3();
    } else {
      ZeroSteps4();
    }
  }

  lemma ZeroSteps1()
    ensures Step1(0xffffffff, 0) == 0xad82acae && Step1(0xad82acae, 0) == 0x0e9e882d
    ensures Step1(0x0e9e882d, 0) == 0x9f9b5c85 && Step1(0x9f9b5c85, 0) == 0xb798b438
    ensures Step1(0xb798b438, 0) == 0xba8d89ca && Step1(0xba8d89ca, 0) == 0xa8d58375
    ensures Step1(0xa8d58375, 0) == 0x44c19592 && Step1(0x44c19592, 0) == 0x73d74d75
  {}

  lemma ZeroSteps2()
    ensures Step1(0x73d74d75, 0) == 0x441a975c && Step1(0x441a975c, 0) == 0x1c220f94
    ensures Step1(0x1c220f94, 0) == 0x552e4907 && Step1(0x552e4907, 0) == 0xd49f4aa2
    ensures Step1(0xd49f4aa2, 0) == 0x43a45a1b && Step1(0x43a45a1b, 0) == 0x8994c80e
    ensures Step1(0x8994c80e, 0) == 0xacf12bef && Step1(0xacf12bef, 0) == 0xbd8f6515
  {}

  lemma ZeroSteps3()
    ensures Step1(0xbd8f6515, 0) == 0x25125c16 && Step1(0x25125c16, 0) == 0x36da32db
    ensures Step1(0x36da32db, 0) == 0x4a6c90a2 && Step1(0x4a6c90a2, 0) == 0x433aa9c1
    ensures Step1(0x433aa9c1, 0) == 0x31a59f6e && Step1(0x31a59f6e, 0) == 0xcd8f89da
    ensures Step1(0xcd8f89da, 0) == 0xb8fc461a && Step1(0xb8fc461a, 0) == 0x7b041311
  {}

  lemma ZeroSteps4()
    ensures Step1(0x7b041311, 0) == 0xe24e407f && Step1(0xe24e407f, 0) == 0x2f692669
    ensures Step1(0x2f692669, 0) == 0x195b2188 && Step1(0x195b2188, 0) == 0x08363896
    ensures Step1(0x08363896, 0) == 0xb4012dc7 && Step1(0xb4012dc7, 0) == 0x17f34302
    ensures Step1(0x17f34302, 0) == 0xe12c83b4 && Step1(0xe12c83b4, 0) == 0x756ec955
  {}

  // Masking turns the checksum by fifteen bits to the right and adds 0xa282ead8.
  lemma MaskOfKnown()
    ensures Mask(0) == 0xa282ead8 && Mask(1) == 0xa282ead8 + 0x20000 && Mask(0x8000) == 0xa282ead8 + 1
    ensures Mask(0xe3069283) == 0xc78ab0e5 && Mask(0x8a9136aa) == 0x0fd7fffa
  {}
}
