/** Worked instances of the manual code layout with a 27-bit PIN code
    field, a 12-bit discriminator field, an 11-digit short group and
    5-digit vendor and product groups. These widths need 1 + 27 + 12 = 40
    bits, more than the 32 the short representation has, so the
    discriminator's bits are shifted out. */
module ManualCodeExamples {
  import opened DecimalString
  import opened Uint32Bits
  import opened ManualSetupPayloadGenerator

  function WideLayout(): Layout {
    Layout(27, 12, 11, 5, 5)
  }

  lemma WideLayoutOverflows()
    ensures ShiftsDefined(WideLayout()) && !FieldsFit(WideLayout())
  {
  }

  lemma Pow2Values()
    ensures Pow2(27) == 0x800_0000 && Pow2(28) == 0x1000_0000 && Pow2(31) == 0x8000_0000
  {
    assert Pow2(8) == 0x100;
    Pow2Add(8, 8);
    Pow2Add(16, 8);
    assert Pow2(3) == 8 && Pow2(4) == 16 && Pow2(7) == 128;
    Pow2Add(24, 3);
    Pow2Add(24, 4);
    Pow2Add(24, 7);
  }

  /** Shifting 3840 (0xF00) left by 28 leaves nothing in 32 bits. */
  lemma DiscriminatorShiftedOut()
    ensures ShiftLeft(3840, 28) == 0
  {
    Pow2Values();
    assert 3840 * Pow2(28) == 240 * UINT32_LIMIT;
    DivModUnique(240, 0, UINT32_LIMIT);
  }

  /** With these widths the PIN code 20202021 and the discriminator 3840
      pack to 40404042: the PIN code survives, the discriminator reads back
      as 0. */
  lemma WideLayoutShortRepresentation(customFlow: bool)
    ensures var payload := SetupPayload(customFlow, 20202021, 3840, 9050, 20043);
      && ShortPayloadRepresentation(WideLayout(), payload) == 40404042 + Flag(customFlow)
      && PINCodeField(WideLayout(), ShortPayloadRepresentation(WideLayout(), payload)) == 20202021
      && DiscriminatorField(WideLayout(), ShortPayloadRepresentation(WideLayout(), payload)) == 0
  {
    var payload := SetupPayload(customFlow, 20202021, 3840, 9050, 20043);
    var short := ShortPayloadRepresentation(WideLayout(), payload);
    Pow2Values();
    DiscriminatorShiftedOut();
    ShortRepresentationSum(WideLayout(), payload);
    assert short == 40404042 + Flag(customFlow);
    PINCodeRecovered(WideLayout(), payload);
    DivModUnique(0, short, Pow2(28));
  }

  lemma RenderVendor()
    ensures DecimalStringWithPadding(9050, 5) == "09050"
  {
    assert ToDecimal(905) == "905";
    assert Digits(9050) == 4;
  }

  lemma RenderProduct()
    ensures DecimalStringWithPadding(20043, 5) == "20043"
  {
    assert ToDecimal(200) == "200";
    assert ToDecimal(2004) == "2004";
    assert Digits(20043) == 5;
  }

  /** The manual code written out from a known short representation. */
  lemma ManualCodeFromShort(layout: Layout, payload: SetupPayload, short: uint32)
    requires ShiftsDefined(layout)
    requires ShortPayloadRepresentation(layout, payload) == short
    ensures !payload.requiresCustomFlow ==>
      ManualCode(layout, payload) == DecimalStringWithPadding(short, layout.shortCodeCharLength)
    ensures payload.requiresCustomFlow ==>
      ManualCode(layout, payload)
        == DecimalStringWithPadding(short, layout.shortCodeCharLength)
           + DecimalStringWithPadding(payload.vendorID, layout.vendorIdCharLength)
           + DecimalStringWithPadding(payload.productID, layout.productIdCharLength)
  {
  }

  /** The short group of that payload: 40404042 (or 40404043 with custom
      flow) as eleven digits, three of them leading zeros. */
  lemma WideLayoutShortGroup(customFlow: bool)
    ensures var shortCode := DecimalStringWithPadding(40404042 + Flag(customFlow), 11);
      && |shortCode| == 11 && shortCode[..3] == "000"
      && Value(shortCode) == 40404042 + Flag(customFlow)
  {
    var n := 40404042 + Flag(customFlow);
    assert Digits(n) == 8 by {
      DigitsBound(n, 8);
      DigitsBound(n, 7);
      assert Pow10(7) == 10_000_000;
    }
    PaddingRoundTrip(n, 11);
  }

  /** The manual code of that payload without custom flow: the eleven-digit
      short group alone. */
  lemma WideLayoutManualCode()
    ensures var code := ManualCode(WideLayout(), SetupPayload(false, 20202021, 3840, 9050, 20043));
      && code == DecimalStringWithPadding(40404042, 11)
      && |code| == 11 && Value(code) == 40404042
  {
    WideLayoutShortRepresentation(false);
    WideLayoutShortGroup(false);
    ManualCodeFromShort(WideLayout(), SetupPayload(false, 20202021, 3840, 9050, 20043), 40404042);
  }

  /** With custom flow: the short group 40404043, then "09050" and
      "20043", 21 digits in all. */
  lemma WideLayoutCustomFlowManualCode()
    ensures var code := ManualCode(WideLayout(), SetupPayload(true, 20202021, 3840, 9050, 20043));
      && code == DecimalStringWithPadding(40404043, 11) + "09050" + "20043"
      && |code| == 21
  {
    WideLayoutShortRepresentation(true);
    WideLayoutShortGroup(true);
    RenderVendor();
    RenderProduct();
    ManualCodeFromShort(WideLayout(), SetupPayload(true, 20202021, 3840, 9050, 20043), 40404043);
  }
}
