/**
 * The functional codec of `code.py`: a table builder for one grid, the
 * lowercase-then-uppercase merge, and encode/decode with no directives.
 * The module globals the source reads (`layout_lowercase`,
 * `encode_special_mappings`, ...) are parameters here.
 */
module FunctionalCodec {
  import opened PyText
  import opened TableBuilder
  import opened Engine

  /** The token of one character: `in`-tested table entry, else special code, else U+FFFD. */
  function TokenOf(encodeDict: map<string, string>, encodeSpecial: map<string, string>, c: char): string
  {
    if [c] in encodeDict then encodeDict[[c]]
    else if [c] in encodeSpecial then encodeSpecial[[c]]
    else Replacement
  }

  /** The piece of one code: table entry, else special entry, else U+FFFD. */
  function PieceOf(decodeDict: map<string, string>, decodeSpecial: map<string, string>, code: string): string
  {
    if code in decodeDict then decodeDict[code]
    else if code in decodeSpecial then decodeSpecial[code]
    else Replacement
  }

  /** One token per character of the normalized text, in order. */
  function Tokens(encodeDict: map<string, string>, encodeSpecial: map<string, string>, normalized: string): (r: seq<string>)
  {
    seq(|normalized|, i requires 0 <= i < |normalized| => TokenOf(encodeDict, encodeSpecial, normalized[i]))
  }

  /** One piece per code, in order. */
  function Pieces(decodeDict: map<string, string>, decodeSpecial: map<string, string>, codes: seq<string>): (r: seq<string>)
  {
    seq(|codes|, i requires 0 <= i < |codes| => PieceOf(decodeDict, decodeSpecial, codes[i]))
  }

  /**
   * One grid built from nothing: its encode keys are exactly the grid's
   * non-blank strings, each maps to the code of its last cell, that code
   * decodes back to it, and every decode key is a builder code carrying the
   * prefix.
   */
  lemma FreshGrid(prefix: char, layout: Grid)
    requires IsDigit(prefix)
    ensures var t := AddGrid(NoTables, prefix, layout);
      && (forall ch :: ch in t.enc <==> !IsBlank(ch) && Occurs(layout, ch))
      && (forall ch :: ch in t.enc ==>
            Occurs(layout, ch) && t.enc[ch] == LastCode(prefix, layout, ch) && t.enc[ch] in t.dec && t.dec[t.enc[ch]] == ch)
      && (forall k :: k in t.dec ==> IsCode(k) && k[0] == prefix)
  {
    var t := AddGrid(NoTables, prefix, layout);
    RowsKeys(NoTables, prefix, layout, |layout|);
    forall ch ensures ch in t.enc <==> !IsBlank(ch) && Occurs(layout, ch) {
      if IsBlank(ch) {
        GridSkipsBlank(NoTables, prefix, layout, |layout|, ch);
      } else {
        GridEnc(NoTables, prefix, layout, ch);
      }
    }
    forall ch | ch in t.enc
      ensures Occurs(layout, ch) && t.enc[ch] == LastCode(prefix, layout, ch) && t.enc[ch] in t.dec && t.dec[t.enc[ch]] == ch
    {
      GridRoundTrip(NoTables, prefix, layout, ch);
    }
  }

  /** `create_encoding_dicts(layout, prefix)`: the nested loops over a fresh pair of dicts. */
  method CreateEncodingDicts(layout: Grid, prefix: char) returns (encodeDict: map<string, string>, decodeDict: map<string, string>)
    requires IsDigit(prefix)
    ensures Tables(encodeDict, decodeDict) == AddGrid(NoTables, prefix, layout)
    ensures forall ch :: ch in encodeDict <==> !IsBlank(ch) && Occurs(layout, ch)
    ensures forall ch :: ch in encodeDict ==>
      Occurs(layout, ch) && encodeDict[ch] == LastCode(prefix, layout, ch)
      && encodeDict[ch] in decodeDict && decodeDict[encodeDict[ch]] == ch
    ensures forall k :: k in decodeDict ==> IsCode(k) && k[0] == prefix
  {
    var t := FillGrid(NoTables, prefix, layout);
    FreshGrid(prefix, layout);
    encodeDict, decodeDict := t.enc, t.dec;
  }

  /**
   * `make_dicts`: `{**lower, **upper}` for both tables. The result is the
   * class version's build of both grids on empty tables (so it is coherent
   * and holds exactly the grids' non-blank strings), and an uppercase cell
   * wins for a string in both grids.
   */
  method MakeDicts(lowercase: Grid, uppercase: Grid) returns (encodeDict: map<string, string>, decodeDict: map<string, string>)
    ensures Tables(encodeDict, decodeDict) == AddLayout(NoTables, lowercase, uppercase)
    ensures Coherent(Tables(encodeDict, decodeDict))
    ensures forall ch :: ch in encodeDict <==> !IsBlank(ch) && (Occurs(lowercase, ch) || Occurs(uppercase, ch))
    ensures forall ch :: ch in encodeDict ==>
      if Occurs(uppercase, ch) then encodeDict[ch] == LastCode('1', uppercase, ch)
      else Occurs(lowercase, ch) && encodeDict[ch] == LastCode('0', lowercase, ch)
  {
    var encodeLower, decodeLower := CreateEncodingDicts(lowercase, '0');
    var encodeUpper, decodeUpper := CreateEncodingDicts(uppercase, '1');
    encodeDict := encodeLower + encodeUpper;
    decodeDict := decodeLower + decodeUpper;
    MergeIsLayout(lowercase, uppercase);
    FreshCoherent(lowercase, uppercase);
    UppercaseWins(lowercase, uppercase);
  }

  /** The merge of the two fresh grids is the build of both grids on empty tables. */
  lemma MergeIsLayout(lowercase: Grid, uppercase: Grid)
    ensures var lo, up := AddGrid(NoTables, '0', lowercase), AddGrid(NoTables, '1', uppercase);
      AddLayout(NoTables, lowercase, uppercase) == Tables(lo.enc + up.enc, lo.dec + up.dec)
  {
    var lo, up := AddGrid(NoTables, '0', lowercase), AddGrid(NoTables, '1', uppercase);
    LayoutIsMerge(NoTables, lowercase, uppercase);
    EmptyUnion(lo.enc + up.enc);
    EmptyUnion(lo.dec + up.dec);
  }

  lemma EmptyUnion(m: map<string, string>)
    ensures map[] + m == m
  {
  }

  /** In the merged table a string of the uppercase grid has its uppercase code, any other its lowercase one. */
  lemma UppercaseWins(lowercase: Grid, uppercase: Grid)
    ensures var t := AddLayout(NoTables, lowercase, uppercase);
      forall ch :: ch in t.enc ==>
        if Occurs(uppercase, ch) then t.enc[ch] == LastCode('1', uppercase, ch)
        else Occurs(lowercase, ch) && t.enc[ch] == LastCode('0', lowercase, ch)
  {
    var t := AddLayout(NoTables, lowercase, uppercase);
    FreshCoherent(lowercase, uppercase);
    forall ch | ch in t.enc
      ensures if Occurs(uppercase, ch) then t.enc[ch] == LastCode('1', uppercase, ch)
        else Occurs(lowercase, ch) && t.enc[ch] == LastCode('0', lowercase, ch)
    {
      LayoutRoundTrip(NoTables, lowercase, uppercase, ch);
    }
  }

  /** The lowercase and uppercase decode tables never share a code: their prefixes differ. */
  lemma MergedDecodeDisjoint(lowercase: Grid, uppercase: Grid)
    ensures forall k :: k in AddGrid(NoTables, '0', lowercase).dec ==> k !in AddGrid(NoTables, '1', uppercase).dec
  {
    FreshGrid('0', lowercase);
    FreshGrid('1', uppercase);
  }

  /** `encode_text`: one token per normalized character, joined by single spaces. */
  method EncodeText(nfd: string -> string, encodeDict: map<string, string>, encodeSpecial: map<string, string>,
                    text: string) returns (r: string)
    ensures r == Join(Tokens(encodeDict, encodeSpecial, nfd(text)), " ")
  {
    var normalized := nfd(text);
    var encodedText: seq<string> := [];
    var i := 0;
    while i < |normalized|
      invariant 0 <= i <= |normalized|
      invariant encodedText == Tokens(encodeDict, encodeSpecial, normalized[..i])
    {
      var ch := normalized[i];
      if [ch] in encodeDict {
        encodedText := encodedText + [encodeDict[[ch]]];
      } else if [ch] in encodeSpecial {
        encodedText := encodedText + [encodeSpecial[[ch]]];
      } else {
        encodedText := encodedText + [Replacement];
      }
      assert normalized[..i + 1][..i] == normalized[..i];
      i := i + 1;
    }
    assert normalized[..i] == normalized;
    r := Join(encodedText, " ");
  }

  /** `decode_text`: one piece per whitespace-separated code, concatenated. */
  method DecodeText(decodeDict: map<string, string>, decodeSpecial: map<string, string>, encoded: string)
    returns (r: string)
    ensures r == Join(Pieces(decodeDict, decodeSpecial, Split(encoded)), "")
  {
    var codes := Split(encoded);
    var decodedText: seq<string> := [];
    var i := 0;
    while i < |codes|
      invariant 0 <= i <= |codes|
      invariant decodedText == Pieces(decodeDict, decodeSpecial, codes[..i])
    {
      var code := codes[i];
      if code in decodeDict {
        decodedText := decodedText + [decodeDict[code]];
      } else if code in decodeSpecial {
        decodedText := decodedText + [decodeSpecial[code]];
      } else {
        decodedText := decodedText + [Replacement];
      }
      assert codes[..i + 1][..i] == codes[..i];
      i := i + 1;
    }
    assert codes[..i] == codes;
    r := Join(decodedText, "");
  }

  /** Blank input decodes to the empty string. */
  lemma DecodeBlank(decodeDict: map<string, string>, decodeSpecial: map<string, string>, encoded: string)
    requires IsBlank(encoded)
    ensures Join(Pieces(decodeDict, decodeSpecial, Split(encoded)), "") == []
  {
    SplitBlank(encoded);
  }

  /**
   * Against coherent tables and a fitting special table, the token of a
   * known character is a whitespace-free code that decodes back to it.
   */
  lemma TokenRoundTrip(t: Tables, encodeSpecial: map<string, string>, decodeSpecial: map<string, string>, c: char)
    requires Coherent(t) && SpecialCoherent(encodeSpecial, decodeSpecial)
    requires [c] in t.enc || [c] in encodeSpecial
    ensures var token := TokenOf(t.enc, encodeSpecial, c);
      token != [] && NoSpace(token) && PieceOf(t.dec, decodeSpecial, token) == [c]
  {
    if [c] !in t.enc {
      assert !IsCode(encodeSpecial[[c]]);
    }
  }

  /**
   * `decode_text(encode_text(s)) == NFD(s)` for the tables `make_dicts`
   * builds from any two grids, with a fitting special table, whenever every
   * normalized character is in the merged table or the special table.
   */
  lemma RoundTrip(lowercase: Grid, uppercase: Grid, encodeSpecial: map<string, string>,
                  decodeSpecial: map<string, string>, normalized: string)
    requires SpecialCoherent(encodeSpecial, decodeSpecial)
    requires forall i :: 0 <= i < |normalized| ==>
      [normalized[i]] in AddLayout(NoTables, lowercase, uppercase).enc || [normalized[i]] in encodeSpecial
    ensures var t := AddLayout(NoTables, lowercase, uppercase);
      Join(Pieces(t.dec, decodeSpecial, Split(Join(Tokens(t.enc, encodeSpecial, normalized), " "))), "") == normalized
  {
    var t := AddLayout(NoTables, lowercase, uppercase);
    FreshCoherent(lowercase, uppercase);
    var tokens := Tokens(t.enc, encodeSpecial, normalized);
    forall i | 0 <= i < |tokens|
      ensures tokens[i] != [] && NoSpace(tokens[i])
      ensures PieceOf(t.dec, decodeSpecial, tokens[i]) == [normalized[i]]
    {
      TokenRoundTrip(t, encodeSpecial, decodeSpecial, normalized[i]);
    }
    SplitJoin(tokens);
    assert Pieces(t.dec, decodeSpecial, tokens) == seq(|normalized|, i requires 0 <= i < |normalized| => [normalized[i]]);
    JoinChars(normalized);
  }
}
