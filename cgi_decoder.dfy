/**
 The 4G and 5G cell-identity decoders. Each takes the hexadecimal cell
 identity a user copies from a P-Access-Network-Info header, cuts it at
 fixed offsets into MCC, MNC, TAC and Cell ID, converts TAC and Cell ID from
 hexadecimal to zero-padded decimal, and returns the fields as an ordered
 list of (label, value, digit count) entries. The offsets are the decoders'
 own, not those of 3GPP TS 24.229; in particular the 5G MNC is the first five
 characters of the input and so repeats the MCC.
 */
module CgiDecoder {
  import opened Numerals

  /** One entry of the decoded mapping: a label, its value text and the count shown beside it. */
  datatype Field = Field(key: string, value: string, digits: nat)

  /**
   The outcome of a decoder: the ordered entries, or the slice that failed
   the base-16 conversion (the error aborts the call, so no entry is returned).
   */
  datatype Result = Ok(fields: seq<Field>) | Err(literal: string)

  /** The four slices a decoder cuts from its input. */
  datatype Parts = Parts(mcc: string, mnc: string, tacHex: string, cellIdHex: string)

  function Min(a: nat, b: nat): nat { if a < b then a else b }

  /** `s[lo:hi]` for non-negative bounds: indices past the end are clamped, so slicing never fails. */
  function Slice(s: string, lo: nat, hi: nat): (r: string)
    requires lo <= hi
    ensures |r| == Min(hi, |s|) - Min(lo, |s|)
    ensures forall i :: 0 <= i < |r| ==> r[i] == s[lo + i]
  {
    s[Min(lo, |s|)..Min(hi, |s|)]
  }

  /** `s[lo:]`: everything from position `lo` on, empty when `lo` is past the end. */
  function From(s: string, lo: nat): (r: string)
    ensures |r| == |s| - Min(lo, |s|)
    ensures forall i :: 0 <= i < |r| ==> r[i] == s[lo + i]
  {
    s[Min(lo, |s|)..]
  }

  /** An entry whose count is the length of its value, as every non-placeholder entry is built. */
  function Entry(key: string, value: string): Field {
    Field(key, value, |value|)
  }

  const Placeholder4G: seq<Field> := [
    Field("MCC", "000", 3),
    Field("MNC", "00", 2),
    Field("TAC", "00000", 5),
    Field("Cell ID", "000000000", 9),
    Field("4G CGI (Dec)", "0000000000000000000", 19)
  ]

  const Placeholder5G: seq<Field> := [
    Field("MCC", "000", 3),
    Field("MNC", "00", 2),
    Field("TAC", "000000", 6),
    Field("Cell ID", "00000000000", 11),
    Field("5G CGI (Dec)", "0000000000000000000000", 22)
  ]

  /** The keys of a non-empty input's result, in order, ending with the composite key. */
  function DecodedKeys(cgiKey: string): seq<string> {
    ["MCC", "MNC", "TAC (Hex)", "TAC (Dec)", "Cell ID (Hex)", "Cell ID (Dec)", cgiKey]
  }

  function Keys(fields: seq<Field>): (ks: seq<string>)
    ensures |ks| == |fields| && forall i :: 0 <= i < |fields| ==> ks[i] == fields[i].key
  {
    seq(|fields|, i requires 0 <= i < |fields| => fields[i].key)
  }

  /**
   Steps shared by both decoders once the input is cut: convert TAC, then
   Cell ID, from base 16 (the first failure aborts), pad them to their widths,
   compose the decimal CGI and list the seven entries.
   */
  function Assemble(p: Parts, tacWidth: nat, cellIdWidth: nat, cgiKey: string): (r: Result)
    ensures r.Err? <==> !(IsHexString(p.tacHex) && IsHexString(p.cellIdHex))
    ensures r.Err? ==> r.literal == if IsHexString(p.tacHex) then p.cellIdHex else p.tacHex
  {
    match ParseHex(p.tacHex)
    case None => Err(p.tacHex)
    case Some(tac) =>
      match ParseHex(p.cellIdHex)
      case None => Err(p.cellIdHex)
      case Some(cellId) =>
        var tacDec := ZeroPad(tac, tacWidth);
        var cellIdDec := ZeroPad(cellId, cellIdWidth);
        var cgiDec := p.mcc + p.mnc + tacDec + cellIdDec;
        Ok([
          Entry("MCC", p.mcc),
          Entry("MNC", p.mnc),
          Entry("TAC (Hex)", p.tacHex),
          Entry("TAC (Dec)", tacDec),
          Entry("Cell ID (Hex)", p.cellIdHex),
          Entry("Cell ID (Dec)", cellIdDec),
          Entry(cgiKey, cgiDec)
        ])
  }

  // ---------------------------------------------------------------------------
  // 4G
  // ---------------------------------------------------------------------------

  /**
   MCC = hex[:3], MNC = hex[3:5], TAC = hex[5:9], Cell ID = hex[9:]. Slicing
   never fails: a short input gives shorter or empty slices.
   */
  function Split4G(hex: string): (p: Parts)
    ensures |p.mcc| == Min(3, |hex|) && |p.mnc| == Min(5, |hex|) - Min(3, |hex|)
    ensures |p.tacHex| == Min(9, |hex|) - Min(5, |hex|) && |p.cellIdHex| == |hex| - Min(9, |hex|)
  {
    Parts(Slice(hex, 0, 3), Slice(hex, 3, 5), Slice(hex, 5, 9), From(hex, 9))
  }

  function Decode4G(hex: string): (r: Result)
    ensures r.Err? <==> hex != [] && !(IsHexString(Split4G(hex).tacHex) && IsHexString(Split4G(hex).cellIdHex))
  {
    if hex == [] then Ok(Placeholder4G) else Assemble(Split4G(hex), 5, 9, "4G CGI (Dec)")
  }

  // ---------------------------------------------------------------------------
  // 5G
  // ---------------------------------------------------------------------------

  /**
   MCC = hex[:3], MNC = hex[:5] (overlapping MCC), TAC = hex[5:11], Cell ID =
   hex[11:]. Slicing never fails: a short input gives shorter or empty slices.
   */
  function Split5G(hex: string): (p: Parts)
    ensures |p.mcc| == Min(3, |hex|) && |p.mnc| == Min(5, |hex|)
    ensures |p.tacHex| == Min(11, |hex|) - Min(5, |hex|) && |p.cellIdHex| == |hex| - Min(11, |hex|)
  {
    Parts(Slice(hex, 0, 3), Slice(hex, 0, 5), Slice(hex, 5, 11), From(hex, 11))
  }

  function Decode5G(hex: string): (r: Result)
    ensures r.Err? <==> hex != [] && !(IsHexString(Split5G(hex).tacHex) && IsHexString(Split5G(hex).cellIdHex))
  {
    if hex == [] then Ok(Placeholder5G) else Assemble(Split5G(hex), 6, 11, "5G CGI (Dec)")
  }

  // ---------------------------------------------------------------------------
  // Properties shared by both decoders
  // ---------------------------------------------------------------------------

  /** Every value is a string of zeros as long as its count. */
  predicate AllZeroEntries(fields: seq<Field>) {
    forall i :: 0 <= i < |fields| ==> fields[i].value == Zeros(fields[i].digits)
  }

  /** Every count is the length of its value. */
  predicate CountsAreLengths(fields: seq<Field>) {
    forall i :: 0 <= i < |fields| ==> fields[i].digits == |fields[i].value|
  }

  /** No key occurs twice, as in the dictionary the decoders return. */
  predicate DistinctKeys(fields: seq<Field>) {
    forall i, j :: 0 <= i < j < |fields| ==> fields[i].key != fields[j].key
  }

  /**
   A successful assembly has the seven entries in their fixed order, echoes the
   four slices verbatim, gives each hex slice's value in padded decimal, and
   composes the CGI from MCC, MNC and the two decimal fields.
   */
  lemma AssembleEntries(p: Parts, tacWidth: nat, cellIdWidth: nat, cgiKey: string)
    requires Assemble(p, tacWidth, cellIdWidth, cgiKey).Ok?
    ensures var fs := Assemble(p, tacWidth, cellIdWidth, cgiKey).fields;
      && Keys(fs) == DecodedKeys(cgiKey)
      && CountsAreLengths(fs)
      && IsHexString(p.tacHex) && IsHexString(p.cellIdHex)
      && fs[0].value == p.mcc && fs[1].value == p.mnc
      && fs[2].value == p.tacHex && fs[4].value == p.cellIdHex
      && |fs[3].value| == Max(tacWidth, |Decimal(ParseHex(p.tacHex).value)|)
      && IsDecimalString(fs[3].value) && ParseDecimal(fs[3].value) == ParseHex(p.tacHex).value
      && |fs[5].value| == Max(cellIdWidth, |Decimal(ParseHex(p.cellIdHex).value)|)
      && IsDecimalString(fs[5].value) && ParseDecimal(fs[5].value) == ParseHex(p.cellIdHex).value
      && fs[6].value == fs[0].value + fs[1].value + fs[3].value + fs[5].value
  {
  }

  lemma CompositeTail(mcc: string, mnc: string, tacDec: string, cellIdDec: string)
    ensures (mcc + mnc + tacDec + cellIdDec)[|mcc| + |mnc|..] == tacDec + cellIdDec
  {
    assert mcc + mnc + tacDec + cellIdDec == (mcc + mnc) + (tacDec + cellIdDec);
  }

  lemma SliceSameUpToHexCase(s: string, t: string, lo: nat, hi: nat)
    requires SameUpToHexCase(s, t) && lo <= hi
    ensures SameUpToHexCase(Slice(s, lo, hi), Slice(t, lo, hi))
    ensures SameUpToHexCase(From(s, lo), From(t, lo))
  {
  }

  /**
   Assembling two cut inputs that differ only in the case of hex letters
   succeeds for both or for neither, and gives the same TAC and Cell ID
   decimal fields.
   */
  lemma AssembleIgnoresCase(p: Parts, q: Parts, tacWidth: nat, cellIdWidth: nat, cgiKey: string)
    requires SameUpToHexCase(p.tacHex, q.tacHex) && SameUpToHexCase(p.cellIdHex, q.cellIdHex)
    ensures Assemble(p, tacWidth, cellIdWidth, cgiKey).Ok? == Assemble(q, tacWidth, cellIdWidth, cgiKey).Ok?
    ensures Assemble(p, tacWidth, cellIdWidth, cgiKey).Ok? ==>
      && Assemble(p, tacWidth, cellIdWidth, cgiKey).fields[3] == Assemble(q, tacWidth, cellIdWidth, cgiKey).fields[3]
      && Assemble(p, tacWidth, cellIdWidth, cgiKey).fields[5] == Assemble(q, tacWidth, cellIdWidth, cgiKey).fields[5]
  {
    ParseHexIgnoresCase(p.tacHex, q.tacHex);
    ParseHexIgnoresCase(p.cellIdHex, q.cellIdHex);
  }

  // ---------------------------------------------------------------------------
  // Properties of the 4G decoder
  // ---------------------------------------------------------------------------

  /** Empty input yields the fixed five-entry all-zero placeholder with counts 3/2/5/9/19. */
  lemma EmptyInput4G()
    ensures Decode4G([]) == Ok(Placeholder4G)
    ensures Keys(Placeholder4G) == ["MCC", "MNC", "TAC", "Cell ID", "4G CGI (Dec)"]
    ensures AllZeroEntries(Placeholder4G) && CountsAreLengths(Placeholder4G) && DistinctKeys(Placeholder4G)
    ensures seq(5, i requires 0 <= i < 5 => Placeholder4G[i].digits) == [3, 2, 5, 9, 19]
  {
  }

  /** The four 4G slices put back together give the input; each sits at its fixed offset. */
  lemma Split4GPartition(hex: string)
    ensures var p := Split4G(hex);
      && p.mcc + p.mnc + p.tacHex + p.cellIdHex == hex
      && p.mcc == hex[..Min(3, |hex|)]
      && (|hex| >= 9 ==> p.mnc == hex[3..5] && p.tacHex == hex[5..9] && p.cellIdHex == hex[9..])
  {
  }

  /**
   A non-empty 4G input decodes to seven entries, in order, whose counts are
   their lengths; MCC, MNC and the hex fields are the input's slices; the
   decimal fields read back as the hex fields' values and are at least 5 and 9
   characters long; and CGI (Dec) is MCC, MNC, TAC (Dec) and Cell ID (Dec)
   joined.
   */
  lemma Decode4GEntries(hex: string)
    requires hex != [] && Decode4G(hex).Ok?
    ensures var fs := Decode4G(hex).fields; var p := Split4G(hex);
      && Keys(fs) == DecodedKeys("4G CGI (Dec)") && DistinctKeys(fs)
      && CountsAreLengths(fs)
      && fs[0].value == p.mcc && fs[1].value == p.mnc
      && fs[2].value == p.tacHex && fs[4].value == p.cellIdHex
      && IsDecimalString(fs[3].value) && ParseDecimal(fs[3].value) == ParseHex(fs[2].value).value
      && |fs[3].value| == Max(5, |Decimal(ParseHex(fs[2].value).value)|)
      && IsDecimalString(fs[5].value) && ParseDecimal(fs[5].value) == ParseHex(fs[4].value).value
      && |fs[5].value| == Max(9, |Decimal(ParseHex(fs[4].value).value)|)
      && fs[6].value == fs[0].value + fs[1].value + fs[3].value + fs[5].value
  {
    AssembleEntries(Split4G(hex), 5, 9, "4G CGI (Dec)");
  }

  /** A non-empty 4G result never has the placeholder's "TAC" and "Cell ID" keys. */
  lemma KeySetsDiffer4G(hex: string)
    requires hex != [] && Decode4G(hex).Ok?
    ensures "TAC" in Keys(Placeholder4G) && "TAC" !in Keys(Decode4G(hex).fields)
    ensures "Cell ID" in Keys(Placeholder4G) && "Cell ID" !in Keys(Decode4G(hex).fields)
  {
    Decode4GEntries(hex);
    assert Keys(Placeholder4G)[2] == "TAC" && Keys(Placeholder4G)[3] == "Cell ID";
  }

  /** A 4G input fails exactly when TAC or Cell ID is not a hex string; every input of 1 to 9 characters fails. */
  lemma Decode4GFailure(hex: string)
    ensures Decode4G(hex).Err? ==>
      Decode4G(hex).literal == if IsHexString(Split4G(hex).tacHex) then Split4G(hex).cellIdHex else Split4G(hex).tacHex
    ensures 0 < |hex| <= 9 ==> Decode4G(hex).Err?
  {
  }

  /**
   Every successful non-empty 4G decode needs at least ten characters; its
   CGI (Dec) has at least 19 characters, and exactly 19 when the Cell ID value
   is below 10^9.
   */
  lemma Cgi4GLength(hex: string)
    requires hex != [] && Decode4G(hex).Ok?
    ensures |hex| >= 10
    ensures |Decode4G(hex).fields[6].value| >= 19
    ensures |Decode4G(hex).fields[6].value| == 19 <==> ParseHex(Split4G(hex).cellIdHex).value < Pow(10, 9)
  {
    Decode4GFailure(hex);
    Decode4GEntries(hex);
    var p := Split4G(hex);
    var tac := ParseHex(p.tacHex).value;
    PowMonotone(16, |p.tacHex|, 4);
    DecimalLengthBound(tac, 5);
    DecimalLengthBound(ParseHex(p.cellIdHex).value, 9);
  }

  /**
   Changing the case of hex letters in a 4G input changes neither whether it
   decodes nor its TAC (Dec) and Cell ID (Dec); CGI (Dec) changes at most in
   the MCC and MNC characters it copies from the input.
   */
  lemma Decode4GIgnoresCase(s: string, t: string)
    requires SameUpToHexCase(s, t)
    ensures Decode4G(s).Ok? == Decode4G(t).Ok?
    ensures s != [] && Decode4G(s).Ok? ==>
      var fs, ft := Decode4G(s).fields, Decode4G(t).fields;
      && fs[3] == ft[3] && fs[5] == ft[5]
      && fs[6].value[|fs[0].value| + |fs[1].value|..] == ft[6].value[|ft[0].value| + |ft[1].value|..]
  {
    if s != [] {
      var p, q := Split4G(s), Split4G(t);
      SliceSameUpToHexCase(s, t, 5, 9);
      SliceSameUpToHexCase(s, t, 9, 9);
      assert SameUpToHexCase(p.tacHex, q.tacHex) && SameUpToHexCase(p.cellIdHex, q.cellIdHex);
      AssembleIgnoresCase(p, q, 5, 9, "4G CGI (Dec)");
      assert Decode4G(s) == Assemble(p, 5, 9, "4G CGI (Dec)");
      assert Decode4G(t) == Assemble(q, 5, 9, "4G CGI (Dec)");
      if Decode4G(s).Ok? {
        Decode4GEntries(s);
        Decode4GEntries(t);
        var fs, ft := Decode4G(s).fields, Decode4G(t).fields;
        CompositeTail(fs[0].value, fs[1].value, fs[3].value, fs[5].value);
        CompositeTail(ft[0].value, ft[1].value, ft[3].value, ft[5].value);
      }
    }
  }

  /**
   A worked 4G input: TAC 0x0ABC is 2748, written "02748"; Cell ID 0xD12345678
   is 56139994744, eleven digits, kept whole, so CGI (Dec) has 21 characters.
   */
  lemma Example4G()
    ensures Decode4G("310150ABCD12345678") == Ok([
      Field("MCC", "310", 3),
      Field("MNC", "15", 2),
      Field("TAC (Hex)", "0ABC", 4),
      Field("TAC (Dec)", "02748", 5),
      Field("Cell ID (Hex)", "D12345678", 9),
      Field("Cell ID (Dec)", "56139994744", 11),
      Field("4G CGI (Dec)", "310150274856139994744", 21)
    ])
  {
    assert Decode4G("310150ABCD12345678") == Assemble(ExampleParts, 5, 9, "4G CGI (Dec)") by {
      assert Split4G("310150ABCD12345678") == ExampleParts;
    }
    ExampleAssembled();
  }

  const ExampleParts := Parts("310", "15", "0ABC", "D12345678")

  lemma ExampleAssembled()
    ensures Assemble(ExampleParts, 5, 9, "4G CGI (Dec)") == Ok([
      Field("MCC", "310", 3),
      Field("MNC", "15", 2),
      Field("TAC (Hex)", "0ABC", 4),
      Field("TAC (Dec)", "02748", 5),
      Field("Cell ID (Hex)", "D12345678", 9),
      Field("Cell ID (Dec)", "56139994744", 11),
      Field("4G CGI (Dec)", "310150274856139994744", 21)
    ])
  {
    ExampleTac();
    ExampleCellId();
    assert "310" + "15" + "02748" + "56139994744" == "310150274856139994744";
  }

  lemma ExampleTac()
    ensures ParseHex("0ABC") == Some(2748) && ZeroPad(2748, 5) == "02748"
  {
    assert ParseHex("0") == Some(0);
    assert "0A"[..1] == "0";
    assert ParseHex("0A") == Some(10);
    assert "0AB"[..2] == "0A";
    assert ParseHex("0AB") == Some(171);
    assert "0ABC"[..3] == "0AB";
    assert Decimal(2) == "2";
    assert Decimal(27) == "27";
    assert Decimal(274) == "274";
  }

  lemma ExampleCellId()
    ensures ParseHex("D12345678") == Some(56139994744) && ZeroPad(56139994744, 9) == "56139994744"
  {
    assert ParseHex("D") == Some(13);
    assert "D1"[..1] == "D";
    assert ParseHex("D1") == Some(209);
    assert "D12"[..2] == "D1";
    assert ParseHex("D12") == Some(3346);
    assert "D123"[..3] == "D12";
    assert ParseHex("D123") == Some(53539);
    assert "D1234"[..4] == "D123";
    assert ParseHex("D1234") == Some(856628);
    assert "D12345"[..5] == "D1234";
    assert ParseHex("D12345") == Some(13706053);
    assert "D123456"[..6] == "D12345";
    assert ParseHex("D123456") == Some(219296854);
    assert "D1234567"[..7] == "D123456";
    assert ParseHex("D1234567") == Some(3508749671);
    assert "D12345678"[..8] == "D1234567";
    assert Decimal(5) == "5";
    assert Decimal(56) == "56";
    assert Decimal(561) == "561";
    assert Decimal(5613) == "5613";
    assert Decimal(56139) == "56139";
    assert Decimal(561399) == "561399";
    assert Decimal(5613999) == "5613999";
    assert Decimal(56139994) == "56139994";
    assert Decimal(561399947) == "561399947";
    assert Decimal(5613999474) == "5613999474";
  }

  // ---------------------------------------------------------------------------
  // Properties of the 5G decoder
  // ---------------------------------------------------------------------------

  /** Empty input yields the fixed five-entry all-zero placeholder with counts 3/2/6/11/22. */
  lemma EmptyInput5G()
    ensures Decode5G([]) == Ok(Placeholder5G)
    ensures Keys(Placeholder5G) == ["MCC", "MNC", "TAC", "Cell ID", "5G CGI (Dec)"]
    ensures AllZeroEntries(Placeholder5G) && CountsAreLengths(Placeholder5G) && DistinctKeys(Placeholder5G)
    ensures seq(5, i requires 0 <= i < 5 => Placeholder5G[i].digits) == [3, 2, 6, 11, 22]
  {
  }

  /**
   The 5G MNC is the first five characters, so MCC is a prefix of it; TAC and
   Cell ID together are the rest of the input from position 5.
   */
  lemma Split5GLayout(hex: string)
    ensures var p := Split5G(hex);
      && p.mcc == hex[..Min(3, |hex|)]
      && p.mnc == hex[..Min(5, |hex|)]
      && p.mcc <= p.mnc
      && p.tacHex + p.cellIdHex == hex[Min(5, |hex|)..]
      && (|hex| >= 11 ==> p.tacHex == hex[5..11] && p.cellIdHex == hex[11..])
  {
  }

  /**
   A non-empty 5G input decodes to seven entries, in order, whose counts are
   their lengths; MCC, MNC and the hex fields are the input's slices; the
   decimal fields read back as the hex fields' values and are at least 6 and
   11 characters long; and CGI (Dec) is MCC, MNC, TAC (Dec) and Cell ID (Dec)
   joined.
   */
  lemma Decode5GEntries(hex: string)
    requires hex != [] && Decode5G(hex).Ok?
    ensures var fs := Decode5G(hex).fields; var p := Split5G(hex);
      && Keys(fs) == DecodedKeys("5G CGI (Dec)") && DistinctKeys(fs)
      && CountsAreLengths(fs)
      && fs[0].value == p.mcc && fs[1].value == p.mnc
      && fs[2].value == p.tacHex && fs[4].value == p.cellIdHex
      && IsDecimalString(fs[3].value) && ParseDecimal(fs[3].value) == ParseHex(fs[2].value).value
      && |fs[3].value| == Max(6, |Decimal(ParseHex(fs[2].value).value)|)
      && IsDecimalString(fs[5].value) && ParseDecimal(fs[5].value) == ParseHex(fs[4].value).value
      && |fs[5].value| == Max(11, |Decimal(ParseHex(fs[4].value).value)|)
      && fs[6].value == fs[0].value + fs[1].value + fs[3].value + fs[5].value
  {
    AssembleEntries(Split5G(hex), 6, 11, "5G CGI (Dec)");
  }

  /** A non-empty 5G result never has the placeholder's "TAC" and "Cell ID" keys. */
  lemma KeySetsDiffer5G(hex: string)
    requires hex != [] && Decode5G(hex).Ok?
    ensures "TAC" in Keys(Placeholder5G) && "TAC" !in Keys(Decode5G(hex).fields)
    ensures "Cell ID" in Keys(Placeholder5G) && "Cell ID" !in Keys(Decode5G(hex).fields)
  {
    Decode5GEntries(hex);
    assert Keys(Placeholder5G)[2] == "TAC" && Keys(Placeholder5G)[3] == "Cell ID";
  }

  /** A 5G input fails exactly when TAC or Cell ID is not a hex string; every input of 1 to 11 characters fails. */
  lemma Decode5GFailure(hex: string)
    ensures Decode5G(hex).Err? ==>
      Decode5G(hex).literal == if IsHexString(Split5G(hex).tacHex) then Split5G(hex).cellIdHex else Split5G(hex).tacHex
    ensures 0 < |hex| <= 11 ==> Decode5G(hex).Err?
  {
  }

  /**
   Every successful non-empty 5G decode needs at least twelve characters; its
   CGI (Dec) has at least 3 + 5 + 6 + 11 = 25 characters, so never the 22 of
   the placeholder, and exactly 25 when TAC is below 10^6 and Cell ID below
   10^11.
   */
  lemma Cgi5GLength(hex: string)
    requires hex != [] && Decode5G(hex).Ok?
    ensures |hex| >= 12
    ensures |Decode5G(hex).fields[6].value| >= 25
    ensures |Decode5G(hex).fields[6].value| == 25 <==>
      ParseHex(Split5G(hex).tacHex).value < Pow(10, 6) && ParseHex(Split5G(hex).cellIdHex).value < Pow(10, 11)
  {
    Decode5GFailure(hex);
    Decode5GEntries(hex);
    var p := Split5G(hex);
    DecimalLengthBound(ParseHex(p.tacHex).value, 6);
    DecimalLengthBound(ParseHex(p.cellIdHex).value, 11);
  }

  /**
   Changing the case of hex letters in a 5G input changes neither whether it
   decodes nor its TAC (Dec) and Cell ID (Dec); CGI (Dec) changes at most in
   the MCC and MNC characters it copies from the input.
   */
  lemma Decode5GIgnoresCase(s: string, t: string)
    requires SameUpToHexCase(s, t)
    ensures Decode5G(s).Ok? == Decode5G(t).Ok?
    ensures s != [] && Decode5G(s).Ok? ==>
      var fs, ft := Decode5G(s).fields, Decode5G(t).fields;
      && fs[3] == ft[3] && fs[5] == ft[5]
      && fs[6].value[|fs[0].value| + |fs[1].value|..] == ft[6].value[|ft[0].value| + |ft[1].value|..]
  {
    if s != [] {
      var p, q := Split5G(s), Split5G(t);
      SliceSameUpToHexCase(s, t, 5, 11);
      SliceSameUpToHexCase(s, t, 11, 11);
      assert SameUpToHexCase(p.tacHex, q.tacHex) && SameUpToHexCase(p.cellIdHex, q.cellIdHex);
      AssembleIgnoresCase(p, q, 6, 11, "5G CGI (Dec)");
      assert Decode5G(s) == Assemble(p, 6, 11, "5G CGI (Dec)");
      assert Decode5G(t) == Assemble(q, 6, 11, "5G CGI (Dec)");
      if Decode5G(s).Ok? {
        Decode5GEntries(s);
        Decode5GEntries(t);
        var fs, ft := Decode5G(s).fields, Decode5G(t).fields;
        CompositeTail(fs[0].value, fs[1].value, fs[3].value, fs[5].value);
        CompositeTail(ft[0].value, ft[1].value, ft[3].value, ft[5].value);
      }
    }
  }

}
