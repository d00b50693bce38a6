# CGI hex decoder — Dafny model

This project models the decoding core of a small desktop tool. The tool turns
the hexadecimal cell identity found in a P-Access-Network-Info header
(section 7.2A.4 of 3GPP TS 24.229) into its decimal parts. The core has two
pure functions, `decode_4g_cgi` and `decode_5g_cgi`. Each one:

1. cuts the input at fixed offsets into MCC, MNC, TAC (hex) and Cell ID (hex);
2. converts TAC and Cell ID from base 16;
3. writes them in decimal, zero-padded to at least 5 and 9 digits (4G) or 6 and 11 digits (5G);
4. joins MCC, MNC and the two decimal fields into "CGI (Dec)";
5. returns an ordered mapping from key to (value, length).

An empty input skips all of this. It returns a fixed all-zero placeholder
with a different set of keys.

The model uses the decoders' own offsets, not the 3GPP layout. The 5G MNC is
the first five characters of the input (`hex_str[:5]`), so it repeats the
MCC. The model reproduces this as written, and `Split5GLayout` and
`Cgi5GLength` state what follows from it.

Files:

- `numerals.dfy` (module `Numerals`) has base-16 parsing (`ParseHex`) and its inverse `ToHex`. It also has decimal rendering (`Decimal`), its inverse `ParseDecimal`, and zero padding (`ZeroPad`), with their round-trip, length and case lemmas.
- `cgi_decoder.dfy` (module `CgiDecoder`) has Python slicing (`Slice`, `From`), the two decoders `Decode4G` and `Decode5G`, the shared steps in `Assemble`, and the properties of the decoders.
- `breakdown.dfy` (module `Breakdown`) has the text a result is shown as: the header line, then one line `key: value (Digits: n)` per entry.

Three consequences of the code as written are easy to miss:

- An empty TAC or Cell ID slice is an error, as `int('', 16)` raises. It does not read as 0. So every non-empty 4G input of at most 9 characters fails, and so does every non-empty 5G input of at most 11 characters (`Decode4GFailure`, `Decode5GFailure`).
- The 4G "CGI (Dec)" is not always 19 characters long. Padding never truncates, so a Cell ID of 10^9 or more makes it longer. `Cgi4GLength` gives the exact condition, and `Example4G` shows a 21-character result.
- The 5G "CGI (Dec)" of a successful non-empty decode has at least 3 + 5 + 6 + 11 = 25 characters. It never has the 22 characters of the placeholder (`Cgi5GLength`).

## Model

| member | source | states |
|---|---|---|
| `Numerals.ParseHex` | CGI_DecoderV3.py:36-37 | base-16 conversion succeeds exactly on a non-empty run of 0-9/a-f/A-F, and the value is below 16^length |
| `Numerals.ParseHexOfToHex` | CGI_DecoderV3.py:36-37 | parsing the hex numeral of any n gives back n (the conversion's inverse) |
| `Numerals.ParseHexIgnoresCase` | CGI_DecoderV3.py:36-37 | strings that differ only in the case of hex letters have the same value, or both fail |
| `Numerals.Decimal` | CGI_DecoderV3.py:40-41 | the decimal numeral of n is non-empty, all digits, and has no leading zero unless n is 0 |
| `Numerals.ParseDecimalOfDecimal` | CGI_DecoderV3.py:40-41 | reading back the decimal numeral of n gives n |
| `Numerals.DecimalLengthBound` | CGI_DecoderV3.py:40-41 | n has at most k decimal digits exactly when n < 10^k |
| `Numerals.ZeroPad` | CGI_DecoderV3.py:40-41 | the padded numeral has length max(width, digit count), so it is never truncated; it is all digits and reads back as n |
| `Numerals.ZeroPadInjective` | CGI_DecoderV3.py:40-41 | two values pad to the same text only if they are equal |
| `Numerals.ZeroPadExactWidth` | CGI_DecoderV3.py:40-41 | the padded text is exactly `width` long exactly when the value is below 10^width |
| `CgiDecoder.Slice` | CGI_DecoderV3.py:30-32 | `s[lo:hi]` clamps both bounds to the string and never fails; character i of the slice is s[lo+i] |
| `CgiDecoder.From` | CGI_DecoderV3.py:33 | `s[lo:]` is everything from lo on, and empty when lo is past the end |
| `CgiDecoder.Decode4G` | CGI_DecoderV3.py:19-54 | the 4G decode fails exactly when the input is non-empty and its TAC or Cell ID slice is not a hex string |
| `CgiDecoder.Decode5G` | CGI_DecoderV3.py:56-91 | the 5G decode fails exactly when the input is non-empty and its TAC or Cell ID slice is not a hex string |
| `CgiDecoder.AssembleEntries` | CGI_DecoderV3.py:36-54 | after slicing: seven keys in fixed order, each count equal to its value's length, decimal fields that read back as the hex values, and CGI = MCC ++ MNC ++ TAC (Dec) ++ Cell ID (Dec) |
| `CgiDecoder.Assemble` | CGI_DecoderV3.py:36-54 | the shared conversion fails exactly when the TAC or Cell ID slice is not a hex string, and the error names TAC when TAC is bad, else Cell ID |
| `CgiDecoder.AssembleIgnoresCase` | CGI_DecoderV3.py:36-41 | hex-letter case in the slices changes neither success nor the two decimal entries |
| `CgiDecoder.EmptyInput4G` | CGI_DecoderV3.py:20-27 | empty input gives the five entries MCC, MNC, TAC, Cell ID, 4G CGI (Dec), all zeros, counts 3/2/5/9/19, each count the value's length |
| `CgiDecoder.Split4G` | CGI_DecoderV3.py:30-33 | the 4G cuts at 3, 5 and 9 clamp to the input: MCC has min(3, n) characters, MNC min(5, n) - min(3, n), TAC (Hex) min(9, n) - min(5, n), and Cell ID (Hex) the rest |
| `CgiDecoder.Split4GPartition` | CGI_DecoderV3.py:30-33 | MCC ++ MNC ++ TAC (Hex) ++ Cell ID (Hex) is the input; MCC is its first min(3, n) characters; with 9 or more characters the slices are [3,5), [5,9), [9,n) |
| `CgiDecoder.Decode4GEntries` | CGI_DecoderV3.py:30-54 | a non-empty 4G success has the seven distinct keys in order; MCC, MNC and the hex fields echo the input slices; TAC (Dec) and Cell ID (Dec) are at least 5 and 9 long and read back as the hex values; CGI is their concatenation |
| `CgiDecoder.KeySetsDiffer4G` | CGI_DecoderV3.py:20-54 | the placeholder has keys "TAC" and "Cell ID", which no non-empty 4G result has |
| `CgiDecoder.Decode4GFailure` | CGI_DecoderV3.py:36-37 | the error reports the first bad slice (TAC before Cell ID); every input of 1 to 9 characters fails |
| `CgiDecoder.Cgi4GLength` | CGI_DecoderV3.py:44 | a non-empty 4G success needs at least 10 characters; its CGI (Dec) has at least 19 characters, and exactly 19 iff the Cell ID value is below 10^9 |
| `CgiDecoder.Decode4GIgnoresCase` | CGI_DecoderV3.py:30-44 | changing hex-letter case keeps success and TAC (Dec)/Cell ID (Dec), and changes CGI (Dec) only in the copied MCC/MNC part |
| `CgiDecoder.Example4G` | CGI_DecoderV3.py:19-54 | "310150ABCD12345678" decodes to TAC (Dec) "02748", Cell ID (Dec) "56139994744" and a 21-character CGI (Dec) |
| `CgiDecoder.EmptyInput5G` | CGI_DecoderV3.py:57-64 | empty input gives the five entries MCC, MNC, TAC, Cell ID, 5G CGI (Dec), all zeros, counts 3/2/6/11/22, each count the value's length |
| `CgiDecoder.Split5G` | CGI_DecoderV3.py:67-70 | the 5G cuts clamp to the input: MCC has min(3, n) characters, MNC min(5, n) (it starts at 0, not 3), TAC (Hex) min(11, n) - min(5, n), and Cell ID (Hex) the rest |
| `CgiDecoder.Split5GLayout` | CGI_DecoderV3.py:67-70 | MNC is the first min(5, n) characters, so MCC is a prefix of MNC; TAC (Hex) ++ Cell ID (Hex) is the input from position 5; TAC (Hex) has at most 6 characters |
| `CgiDecoder.Decode5GEntries` | CGI_DecoderV3.py:67-91 | a non-empty 5G success has the seven distinct keys in order; MCC, MNC and the hex fields echo the input slices; TAC (Dec) and Cell ID (Dec) are at least 6 and 11 long and read back as the hex values; CGI is their concatenation |
| `CgiDecoder.KeySetsDiffer5G` | CGI_DecoderV3.py:57-91 | the placeholder has keys "TAC" and "Cell ID", which no non-empty 5G result has |
| `CgiDecoder.Decode5GFailure` | CGI_DecoderV3.py:73-74 | the error reports the first bad slice (TAC before Cell ID); every input of 1 to 11 characters fails |
| `CgiDecoder.Cgi5GLength` | CGI_DecoderV3.py:81 | a non-empty 5G success needs at least 12 characters; its CGI (Dec) has at least 25 characters (never the placeholder's 22), and exactly 25 iff TAC < 10^6 and Cell ID < 10^11 |
| `CgiDecoder.Decode5GIgnoresCase` | CGI_DecoderV3.py:67-81 | changing hex-letter case keeps success and TAC (Dec)/Cell ID (Dec), and changes CGI (Dec) only in the copied MCC/MNC part |
| `Breakdown.LinesAppend` | CGI_DecoderV3.py:103-104 | the lines of a joined entry list are the joined lines, so entry order is kept |
| `Breakdown.FieldLine` | CGI_DecoderV3.py:104 | an entry's line ends with a line break, and holds exactly one when its key and value hold none |
| `Breakdown.BreakdownText` | CGI_DecoderV3.py:102-104 | when the generation, keys and values hold no line break, the breakdown text has one line for the header plus one per entry |
| `Breakdown.Breakdown4GLineCount` | CGI_DecoderV3.py:100-104 | a 4G success on an input without line breaks shows 8 lines, or 6 for the empty input |
| `Breakdown.Breakdown5GLineCount` | CGI_DecoderV3.py:106-110 | a 5G success on an input without line breaks shows 8 lines, or 6 for the empty input |

## Left out

- The Tkinter window, widgets, button styles and `clear_entries` (CGI_DecoderV3.py:93-116, 129-187) are left out. They are GUI state. The model keeps only the text `decode_cgi` inserts (module `Breakdown`).
- `export_results` (CGI_DecoderV3.py:118-127) is left out. It is a file dialog plus file writes.
- `resource_path` and the logo loading (CGI_DecoderV3.py:10-17, 138-142) are left out. They are platform, path and image I/O.
- CgiDecoder.Decode4G does not model CPython's limit on int-to-str conversion (4300 digits by default, set by `sys.set_int_max_str_digits`). Above it, `f'{cell_id_dec:09d}'` (CGI_DecoderV3.py:41) raises `ValueError`, for example on "310150000" followed by 3572 'F's. The model returns `Ok` with the full numeral, because the limit is an interpreter setting and not part of the decoder.
- CgiDecoder.Decode5G does not model the same 4300-digit limit at `f'{cell_id_dec:011d}'` (CGI_DecoderV3.py:78). The reason is the same as for `Decode4G`.
- Numerals.ParseHex accepts only `[0-9a-fA-F]+`. Python's `int(s, 16)` also accepts surrounding whitespace, `_` separators, a `0x` prefix, a sign and non-ASCII digits. The model treats all of these as errors. As a result it does not cover the negative values that a leading `-` would let through (for example `-0001`).
- The source raises a `ValueError` whose message quotes the bad literal. The model returns `Err` holding that literal, without the message text.
- Python's insertion-ordered dict is modelled as a sequence of entries. `Decode4GEntries`, `Decode5GEntries`, `EmptyInput4G` and `EmptyInput5G` prove that its keys are distinct.
- Calling a decoder twice on the same input gives the same result because the decoders are functions. No lemma states this.
