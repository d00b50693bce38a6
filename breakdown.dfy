/**
 The text a decoder's result is shown as: a header naming the generation,
 then one line `<key>: <value> (Digits: <count>)` per entry, in the entries'
 order.
 */
module Breakdown {
  import opened Numerals
  import opened CgiDecoder

  /** One entry's line; it is a single line of text when its key and value hold no line break. */
  function FieldLine(f: Field): (line: string)
    ensures |line| > 0 && line[|line| - 1] == '\n'
    ensures NoNewline(f.key) && NoNewline(f.value) ==> CountChar('\n', line) == 1
  {
    LineBreaksOfLine(f.key, f.value, Decimal(f.digits));
    f.key + ": " + f.value + " (Digits: " + Decimal(f.digits) + ")\n"
  }

  function Lines(fields: seq<Field>): string {
    if fields == [] then [] else FieldLine(fields[0]) + Lines(fields[1..])
  }

  /**
   Header `"<generation> CGI Breakdown:"` followed by the entry lines. When no
   key or value holds a line break, the text has one line for the header and
   one per entry.
   */
  function BreakdownText(generation: string, fields: seq<Field>): (text: string)
    ensures NoNewline(generation) && SingleLineEntries(fields) ==> CountChar('\n', text) == |fields| + 1
  {
    var header := " CGI Breakdown:\n";
    assert NoNewline(generation) && SingleLineEntries(fields) ==>
      CountChar('\n', generation + header + Lines(fields)) == |fields| + 1 by {
      if NoNewline(generation) && SingleLineEntries(fields) {
        HeaderHasOneLineBreak();
        NoNewlineCount(generation);
        CountCharAppend('\n', generation, header);
        CountCharAppend('\n', generation + header, Lines(fields));
        LinesCount(fields);
      }
    }
    generation + header + Lines(fields)
  }

  /** No key or value of the entries holds a line break. */
  predicate SingleLineEntries(fields: seq<Field>) {
    forall i :: 0 <= i < |fields| ==> NoNewline(fields[i].key) && NoNewline(fields[i].value)
  }

  function CountChar(c: char, s: string): nat {
    if s == [] then 0 else (if s[0] == c then 1 else 0) + CountChar(c, s[1..])
  }

  lemma {:induction false} CountCharAppend(c: char, s: string, t: string)
    ensures CountChar(c, s + t) == CountChar(c, s) + CountChar(c, t)
    decreases |s|
  {
    if s != [] {
      assert (s + t)[1..] == s[1..] + t;
      CountCharAppend(c, s[1..], t);
    } else {
      assert s + t == t;
    }
  }

  /** Lines of a concatenation are the concatenated lines: the entries' order is kept. */
  lemma {:induction false} LinesAppend(a: seq<Field>, b: seq<Field>)
    ensures Lines(a + b) == Lines(a) + Lines(b)
    decreases |a|
  {
    if a != [] {
      assert (a + b)[1..] == a[1..] + b;
      LinesAppend(a[1..], b);
    } else {
      assert a + b == b;
    }
  }

  predicate NoNewline(s: string) {
    forall i :: 0 <= i < |s| ==> s[i] != '\n'
  }

  lemma NoNewlineCount(s: string)
    requires NoNewline(s)
    ensures CountChar('\n', s) == 0
    decreases |s|
  {
    if s != [] {
      NoNewlineCount(s[1..]);
    }
  }

  lemma LineBreaksOfLine(key: string, value: string, digits: string)
    requires IsDecimalString(digits)
    ensures var line := key + ": " + value + " (Digits: " + digits + ")\n";
      && |line| > 0 && line[|line| - 1] == '\n'
      && (NoNewline(key) && NoNewline(value) ==> CountChar('\n', line) == 1)
  {
    if NoNewline(key) && NoNewline(value) {
      DecimalHasNoNewline(digits);
      assert CountChar('\n', ": ") == 0 && CountChar('\n', " (Digits: ") == 0 && CountChar('\n', ")\n") == 1;
      NoNewlineCount(key);
      NoNewlineCount(value);
      NoNewlineCount(digits);
      CountCharAppend('\n', key, ": ");
      CountCharAppend('\n', key + ": ", value);
      CountCharAppend('\n', key + ": " + value, " (Digits: ");
      CountCharAppend('\n', key + ": " + value + " (Digits: ", digits);
      CountCharAppend('\n', key + ": " + value + " (Digits: " + digits, ")\n");
    }
  }

  lemma HeaderHasOneLineBreak()
    ensures CountChar('\n', " CGI Breakdown:\n") == 1
  {
    var h := " CGI Breakdown:\n";
    assert h == " CGI Breakdown:" + "\n";
    assert NoNewline(" CGI Breakdown:");
    NoNewlineCount(" CGI Breakdown:");
    CountCharAppend('\n', " CGI Breakdown:", "\n");
  }

  lemma {:induction false} LinesCount(fields: seq<Field>)
    requires SingleLineEntries(fields)
    ensures CountChar('\n', Lines(fields)) == |fields|
    decreases |fields|
  {
    if fields != [] {
      LinesCount(fields[1..]);
      CountCharAppend('\n', FieldLine(fields[0]), Lines(fields[1..]));
    }
  }

  lemma DecimalHasNoNewline(s: string)
    requires IsDecimalString(s)
    ensures NoNewline(s)
  {
  }

  /** The seven entries of a decode: no line break appears unless the input slices hold one. */
  lemma DecodedEntriesSingleLine(fs: seq<Field>, cgiKey: string)
    requires Keys(fs) == DecodedKeys(cgiKey) && NoNewline(cgiKey)
    requires NoNewline(fs[0].value) && NoNewline(fs[1].value) && NoNewline(fs[2].value) && NoNewline(fs[4].value)
    requires IsDecimalString(fs[3].value) && IsDecimalString(fs[5].value)
    requires fs[6].value == fs[0].value + fs[1].value + fs[3].value + fs[5].value
    ensures SingleLineEntries(fs)
  {
    assert forall i :: 0 <= i < |fs| ==> fs[i].key == DecodedKeys(cgiKey)[i];
    DecimalHasNoNewline(fs[3].value);
    DecimalHasNoNewline(fs[5].value);
    assert NoNewline(fs[6].value);
  }

  lemma SliceNoNewline(s: string, lo: nat, hi: nat)
    requires NoNewline(s) && lo <= hi
    ensures NoNewline(Slice(s, lo, hi)) && NoNewline(From(s, lo))
  {
  }

  lemma PlaceholderSingleLine(fs: seq<Field>)
    requires fs == Placeholder4G || fs == Placeholder5G
    ensures SingleLineEntries(fs)
  {
    EmptyInput4G();
    EmptyInput5G();
    forall i | 0 <= i < |fs|
      ensures NoNewline(fs[i].key) && NoNewline(fs[i].value)
    {
      assert fs[i].value == Zeros(fs[i].digits);
    }
  }

  lemma AssembledSingleLine(p: Parts, tacWidth: nat, cellIdWidth: nat, cgiKey: string)
    requires NoNewline(p.mcc) && NoNewline(p.mnc) && NoNewline(p.tacHex) && NoNewline(p.cellIdHex)
    requires NoNewline(cgiKey) && Assemble(p, tacWidth, cellIdWidth, cgiKey).Ok?
    ensures |Assemble(p, tacWidth, cellIdWidth, cgiKey).fields| == 7
    ensures var fs := Assemble(p, tacWidth, cellIdWidth, cgiKey).fields;
      forall i :: 0 <= i < 7 ==> NoNewline(fs[i].key) && NoNewline(fs[i].value)
  {
    AssembleEntries(p, tacWidth, cellIdWidth, cgiKey);
    DecodedEntriesSingleLine(Assemble(p, tacWidth, cellIdWidth, cgiKey).fields, cgiKey);
  }

  /**
   A successful 4G decode of an input without line breaks is shown as the
   header and one line per entry: eight lines, or six for the empty input.
   */
  lemma Breakdown4GLineCount(hex: string)
    requires NoNewline(hex) && Decode4G(hex).Ok?
    ensures CountChar('\n', BreakdownText("4G", Decode4G(hex).fields)) == if hex == [] then 6 else 8
  {
    var fs := Decode4G(hex).fields;
    if hex == [] {
      assert fs == Placeholder4G;
      PlaceholderSingleLine(fs);
    } else {
      Decode4GSingleLine(hex);
    }
  }

  lemma Decode4GSingleLine(hex: string)
    requires NoNewline(hex) && hex != [] && Decode4G(hex).Ok?
    ensures |Decode4G(hex).fields| == 7
    ensures forall i :: 0 <= i < 7 ==> NoNewline(Decode4G(hex).fields[i].key) && NoNewline(Decode4G(hex).fields[i].value)
  {
    Split4GSingleLine(hex);
    Decode4GIsAssembled(hex);
    AssembledSingleLine(Split4G(hex), 5, 9, "4G CGI (Dec)");
  }

  lemma Split4GSingleLine(hex: string)
    requires NoNewline(hex)
    ensures var p := Split4G(hex);
      NoNewline(p.mcc) && NoNewline(p.mnc) && NoNewline(p.tacHex) && NoNewline(p.cellIdHex)
  {
    SliceNoNewline(hex, 0, 3);
    SliceNoNewline(hex, 3, 5);
    SliceNoNewline(hex, 5, 9);
    SliceNoNewline(hex, 9, 9);
  }

  lemma Decode4GIsAssembled(hex: string)
    requires hex != []
    ensures Decode4G(hex) == Assemble(Split4G(hex), 5, 9, "4G CGI (Dec)")
  {
  }

  /**
   A successful 5G decode of an input without line breaks is shown as the
   header and one line per entry: eight lines, or six for the empty input.
   */
  lemma Breakdown5GLineCount(hex: string)
    requires NoNewline(hex) && Decode5G(hex).Ok?
    ensures CountChar('\n', BreakdownText("5G", Decode5G(hex).fields)) == if hex == [] then 6 else 8
  {
    var fs := Decode5G(hex).fields;
    if hex == [] {
      assert fs == Placeholder5G;
      PlaceholderSingleLine(fs);
    } else {
      Decode5GSingleLine(hex);
    }
  }

  lemma Decode5GSingleLine(hex: string)
    requires NoNewline(hex) && hex != [] && Decode5G(hex).Ok?
    ensures |Decode5G(hex).fields| == 7
    ensures forall i :: 0 <= i < 7 ==> NoNewline(Decode5G(hex).fields[i].key) && NoNewline(Decode5G(hex).fields[i].value)
  {
    Split5GSingleLine(hex);
    Decode5GIsAssembled(hex);
    AssembledSingleLine(Split5G(hex), 6, 11, "5G CGI (Dec)");
  }

  lemma Split5GSingleLine(hex: string)
    requires NoNewline(hex)
    ensures var p := Split5G(hex);
      NoNewline(p.mcc) && NoNewline(p.mnc) && NoNewline(p.tacHex) && NoNewline(p.cellIdHex)
  {
    SliceNoNewline(hex, 0, 3);
    SliceNoNewline(hex, 0, 5);
    SliceNoNewline(hex, 5, 11);
    SliceNoNewline(hex, 11, 11);
  }

  lemma Decode5GIsAssembled(hex: string)
    requires hex != []
    ensures Decode5G(hex) == Assemble(Split5G(hex), 6, 11, "5G CGI (Dec)")
  {
  }
}
