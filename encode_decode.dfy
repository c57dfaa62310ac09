/**
 * The class version of the codec (`EncodeDecode` in `encode_decode.py`).
 * `encode_text` walks the normalized text one character at a time; a `~`
 * may name a layout (checked against the engine's own `LayoutFunctions`
 * instance), which is then activated from the registry the engine was given
 * and emitted as a bare token. `decode_text` walks the whitespace-separated
 * tokens; a token that is a layout key activates it and gives back
 * `~key~`. The scans are specified as folds (`EncodeRun`, `DecodeRun`) and
 * the class's loops are proved to follow them.
 */
module ClassCodec {
  import opened PyText
  import opened Results
  import Registry
  import opened TableBuilder
  import opened Engine
  import LayoutStore
  import SpecialMappings

  /**
   * The token of one non-`~` character: `encoding_dict.get(char) or
   * encode_special_mappings.get(char, '�')`, guarded by `char in
   * encoding_dict or encode_special_mappings`. The guard changes nothing:
   * the result is the table code, else the special code, else U+FFFD.
   */
  function EncodeChar(enc: map<string, string>, special: map<string, string>, c: char): (token: string)
    ensures token == if [c] in enc && enc[[c]] != [] then enc[[c]]
                     else if [c] in special then special[[c]]
                     else Replacement
  {
    if [c] in enc || |special| > 0 then
      var fromTable := if [c] in enc then enc[[c]] else [];
      if fromTable != [] then fromTable
      else if [c] in special then special[[c]] else Replacement
    else Replacement
  }

  /** The piece of one non-key token: the decode table, else the special decode table, else U+FFFD. */
  function DecodeToken(dec: map<string, string>, special: map<string, string>, code: string): (piece: string)
    ensures piece == if code in dec && dec[code] != [] then dec[code]
                     else if code in special then special[code]
                     else Replacement
  {
    if code in dec || |special| > 0 then
      var fromTable := if code in dec then dec[code] else [];
      if fromTable != [] then fromTable
      else if code in special then special[code] else Replacement
    else Replacement
  }

  /** The scan's state: the tokens so far, the engine's state, and the exception that ended the scan, if any. */
  datatype Run = Run(tokens: seq<string>, session: Session, failure: Option<Error>)

  /** One iteration of the `for i, char in enumerate(normalized_text)` loop. */
  function EncodeStep(run: Run, text: string, i: nat, keys: Registry.Layouts, reg: Registry.Layouts,
                      special: map<string, string>): Run
    requires i < |text|
  {
    if run.failure.Some? then run
    else if text[i] == '~' then
      var key := Slice(text, i + 1, Find(text, '~', i + 1));
      if Registry.Listed(Registry.ListLayouts(keys), key) then
        match Activate(run.session, reg, key)
        case Err(e) => Run(run.tokens, run.session, Some(e))
        case Ok(s') => Run(run.tokens + [key], s', None)
      else run
    else Run(run.tokens + [EncodeChar(run.session.tables.enc, special, text[i])], run.session, None)
  }

  /** The first `n` iterations of the encode loop, from state `s`. */
  function EncodeRun(s: Session, text: string, n: nat, keys: Registry.Layouts, reg: Registry.Layouts,
                     special: map<string, string>): Run
    requires n <= |text|
  {
    if n == 0 then Run([], s, None)
    else EncodeStep(EncodeRun(s, text, n - 1, keys, reg, special), text, n - 1, keys, reg, special)
  }

  /** One iteration of the `for code in codes` loop of `decode_text`. */
  function DecodeStep(run: Run, code: string, keys: Registry.Layouts, reg: Registry.Layouts,
                      special: map<string, string>): Run
  {
    if run.failure.Some? then run
    else if Registry.Listed(Registry.ListLayouts(keys), code) then
      match Activate(run.session, reg, code)
      case Err(e) => Run(run.tokens, run.session, Some(e))
      case Ok(s') => Run(run.tokens + ["~" + code + "~"], s', None)
    else Run(run.tokens + [DecodeToken(run.session.tables.dec, special, code)], run.session, None)
  }

  /** The first `n` iterations of the decode loop over `codes`, from state `s`. */
  function DecodeRun(s: Session, codes: seq<string>, n: nat, keys: Registry.Layouts, reg: Registry.Layouts,
                     special: map<string, string>): Run
    requires n <= |codes|
  {
    if n == 0 then Run([], s, None)
    else DecodeStep(DecodeRun(s, codes, n - 1, keys, reg, special), codes[n - 1], keys, reg, special)
  }

  // ----- what the scans do -----

  /** Once an exception ends the encode scan, nothing after it changes the outcome. */
  lemma {:induction false} EncodeFailureSticks(s: Session, text: string, n: nat, m: nat, keys: Registry.Layouts,
                                               reg: Registry.Layouts, special: map<string, string>)
    requires n <= m <= |text|
    requires EncodeRun(s, text, n, keys, reg, special).failure.Some?
    ensures EncodeRun(s, text, m, keys, reg, special) == EncodeRun(s, text, n, keys, reg, special)
    decreases m
  {
    if m > n {
      EncodeFailureSticks(s, text, n, m - 1, keys, reg, special);
    }
  }

  /** Once an exception ends the decode scan, nothing after it changes the outcome. */
  lemma {:induction false} DecodeFailureSticks(s: Session, codes: seq<string>, n: nat, m: nat, keys: Registry.Layouts,
                                               reg: Registry.Layouts, special: map<string, string>)
    requires n <= m <= |codes|
    requires DecodeRun(s, codes, n, keys, reg, special).failure.Some?
    ensures DecodeRun(s, codes, m, keys, reg, special) == DecodeRun(s, codes, n, keys, reg, special)
    decreases m
  {
    if m > n {
      DecodeFailureSticks(s, codes, n, m - 1, keys, reg, special);
    }
  }

  /**
   * Text without `~` gives exactly one token per character, in order, each
   * chosen from the current tables, and leaves the state as it was.
   */
  lemma {:induction false} EncodePlain(s: Session, text: string, n: nat, keys: Registry.Layouts,
                                       reg: Registry.Layouts, special: map<string, string>)
    requires n <= |text|
    requires forall i :: 0 <= i < n ==> text[i] != '~'
    ensures EncodeRun(s, text, n, keys, reg, special)
      == Run(seq(n, i requires 0 <= i < n => EncodeChar(s.tables.enc, special, text[i])), s, None)
  {
    if n > 0 {
      EncodePlain(s, text, n - 1, keys, reg, special);
    }
  }

  /**
   * Tokens none of which is a layout key give exactly one piece each, in
   * order, and leave the state as it was.
   */
  lemma {:induction false} DecodePlain(s: Session, codes: seq<string>, n: nat, keys: Registry.Layouts,
                                       reg: Registry.Layouts, special: map<string, string>)
    requires n <= |codes|
    requires forall i :: 0 <= i < n ==> !Registry.Listed(Registry.ListLayouts(keys), codes[i])
    ensures DecodeRun(s, codes, n, keys, reg, special)
      == Run(seq(n, i requires 0 <= i < n => DecodeToken(s.tables.dec, special, codes[i])), s, None)
  {
    if n > 0 {
      DecodePlain(s, codes, n - 1, keys, reg, special);
    }
  }

  /**
   * A `~` never yields a table code: it yields the candidate key when that
   * is a listed key whose layout activates, and nothing otherwise.
   */
  lemma TildeToken(run: Run, text: string, i: nat, keys: Registry.Layouts, reg: Registry.Layouts,
                   special: map<string, string>)
    requires i < |text| && text[i] == '~'
    requires run.failure.None?
    ensures var run' := EncodeStep(run, text, i, keys, reg, special);
      var key := Slice(text, i + 1, Find(text, '~', i + 1));
      && (run'.tokens == run.tokens || (run'.tokens == run.tokens + [key] && Registry.HasKey(keys, key)))
      && (!Registry.HasKey(keys, key) ==> run' == run)
  {
    Registry.ListedIffRegistered(keys);
  }

  /** The opening `~` of `~key~` finds the closing one, emits the bare key and activates its layout. */
  lemma DirectiveOpens(s: Session, key: string, keys: Registry.Layouts, reg: Registry.Layouts,
                       special: map<string, string>)
    requires forall j :: 0 <= j < |key| ==> key[j] != '~'
    requires Registry.HasKey(keys, key) && Activate(s, reg, key).Ok?
    ensures EncodeRun(s, "~" + key + "~", 1, keys, reg, special) == Run([key], Activate(s, reg, key).value, None)
  {
    var text := "~" + key + "~";
    assert text[|key| + 1] == '~';
    assert forall j :: 1 <= j < |key| + 1 ==> text[j] == key[j - 1];
    assert Find(text, '~', 1) == |key| + 1;
    assert text[1..|key| + 1] == key;
    Registry.ListedIffRegistered(keys);
  }

  /** One `EncodeChar` token per character of `s`, all under the same tables. */
  function CharTokens(enc: map<string, string>, special: map<string, string>, s: string): (r: seq<string>)
    ensures |r| == |s| && forall j :: 0 <= j < |s| ==> r[j] == EncodeChar(enc, special, s[j])
  {
    seq(|s|, j requires 0 <= j < |s| => EncodeChar(enc, special, s[j]))
  }

  /** A stretch of text without `~` adds one token per character under the tables it starts with. */
  lemma {:induction false} EncodeCharsFrom(s: Session, text: string, lo: nat, n: nat, keys: Registry.Layouts,
                                           reg: Registry.Layouts, special: map<string, string>)
    requires lo <= n <= |text|
    requires forall i :: lo <= i < n ==> text[i] != '~'
    requires EncodeRun(s, text, lo, keys, reg, special).failure.None?
    ensures var run := EncodeRun(s, text, lo, keys, reg, special);
      EncodeRun(s, text, n, keys, reg, special)
        == Run(run.tokens + CharTokens(run.session.tables.enc, special, text[lo..n]), run.session, None)
    decreases n
  {
    var run := EncodeRun(s, text, lo, keys, reg, special);
    var enc := run.session.tables.enc;
    if n > lo {
      EncodeCharsFrom(s, text, lo, n - 1, keys, reg, special);
      var prev := EncodeRun(s, text, n - 1, keys, reg, special);
      assert EncodeRun(s, text, n, keys, reg, special) == EncodeStep(prev, text, n - 1, keys, reg, special);
      EncodeCharStep(prev, text, n - 1, keys, reg, special);
      CharTokensSnoc(enc, special, text, lo, n);
    } else {
      assert CharTokens(enc, special, text[lo..n]) == [];
    }
  }

  lemma CharTokensSnoc(enc: map<string, string>, special: map<string, string>, text: string, lo: nat, n: nat)
    requires lo < n <= |text|
    ensures CharTokens(enc, special, text[lo..n])
      == CharTokens(enc, special, text[lo..n - 1]) + [EncodeChar(enc, special, text[n - 1])]
  {
    assert text[lo..n] == text[lo..n - 1] + [text[n - 1]];
  }

  /**
   * The loop does not skip a directive's key: `~key~` emits the bare key,
   * activates its layout, then encodes each character of the key with the
   * new tables, and the closing `~` (whose candidate is empty, not a key)
   * emits nothing.
   */
  lemma DirectiveKeyReencoded(s: Session, key: string, keys: Registry.Layouts,
                              reg: Registry.Layouts, special: map<string, string>)
    requires forall j :: 0 <= j < |key| ==> key[j] != '~'
    requires Registry.HasKey(keys, key) && !Registry.HasKey(keys, [])
    requires Activate(s, reg, key).Ok?
    ensures var s' := Activate(s, reg, key).value;
      var text := "~" + key + "~";
      EncodeRun(s, text, |text|, keys, reg, special)
        == Run([key] + CharTokens(s'.tables.enc, special, key), s', None)
  {
    var text := "~" + key + "~";
    DirectiveOpens(s, key, keys, reg, special);
    assert forall j :: 1 <= j < |key| + 1 ==> text[j] == key[j - 1];
    EncodeCharsFrom(s, text, 1, |key| + 1, keys, reg, special);
    assert text[1..|key| + 1] == key;
    assert text[|key| + 1] == '~';
    assert Find(text, '~', |key| + 2) == -1;
    assert Slice(text, |key| + 2, -1) == [];
    Registry.ListedIffRegistered(keys);
  }

  /** The encode step at any other character, unfolded. */
  lemma EncodeCharStep(run: Run, text: string, i: nat, keys: Registry.Layouts, reg: Registry.Layouts,
                       special: map<string, string>)
    requires i < |text| && text[i] != '~' && run.failure.None?
    ensures EncodeStep(run, text, i, keys, reg, special)
      == Run(run.tokens + [EncodeChar(run.session.tables.enc, special, text[i])], run.session, None)
  {
  }

  /** The encode step at a `~`, unfolded for the class's loop. */
  lemma EncodeTildeStep(run: Run, text: string, i: nat, keys: Registry.Layouts, reg: Registry.Layouts,
                        special: map<string, string>)
    requires i < |text| && text[i] == '~' && run.failure.None?
    ensures var key := Slice(text, i + 1, Find(text, '~', i + 1));
      var a := Activate(run.session, reg, key);
      EncodeStep(run, text, i, keys, reg, special)
        == if !Registry.Listed(Registry.ListLayouts(keys), key) then run
           else if a.Ok? then Run(run.tokens + [key], a.value, None)
           else Run(run.tokens, run.session, Some(a.error))
  {
  }

  /** The decode step at a listed key, unfolded for the class's loop. */
  lemma DecodeKeyStep(run: Run, code: string, keys: Registry.Layouts, reg: Registry.Layouts,
                      special: map<string, string>)
    requires run.failure.None? && Registry.Listed(Registry.ListLayouts(keys), code)
    ensures var a := Activate(run.session, reg, code);
      DecodeStep(run, code, keys, reg, special)
        == if a.Ok? then Run(run.tokens + ["~" + code + "~"], a.value, None)
           else Run(run.tokens, run.session, Some(a.error))
  {
  }

  // ----- the round trip -----

  /**
   * With coherent tables and a fitting special table, the token of every
   * character the tables or the special table know is a non-empty,
   * whitespace-free, digit-led code that decodes back to the character.
   */
  lemma TokenRoundTrip(t: Tables, encodeSpecial: map<string, string>, decodeSpecial: map<string, string>, c: char)
    requires Coherent(t) && SpecialCoherent(encodeSpecial, decodeSpecial)
    requires [c] in t.enc || [c] in encodeSpecial
    ensures var token := EncodeChar(t.enc, encodeSpecial, c);
      && token != [] && NoSpace(token) && IsDigit(token[0])
      && DecodeToken(t.dec, decodeSpecial, token) == [c]
  {
    if [c] !in t.enc {
      var v := encodeSpecial[[c]];
      assert !IsCode(v);
    }
  }

  /**
   * `decode_text(encode_text(s)) == NFD(s)`: when the tables are coherent
   * (as right after the first activation), the special table fits, no
   * layout key starts with a digit, and every character of the normalized
   * text is a non-`~` character the tables or the special table know, the
   * decoded text is the normalized text and neither call changes the state.
   */
  lemma RoundTrip(s: Session, text: string, keys: Registry.Layouts, reg: Registry.Layouts,
                  encodeSpecial: map<string, string>, decodeSpecial: map<string, string>)
    requires Coherent(s.tables) && SpecialCoherent(encodeSpecial, decodeSpecial) && KeysNotCodes(keys)
    requires forall i :: 0 <= i < |text| ==> text[i] != '~' && ([text[i]] in s.tables.enc || [text[i]] in encodeSpecial)
    ensures var enc := EncodeRun(s, text, |text|, keys, reg, encodeSpecial);
      var codes := Split(Join(enc.tokens, " "));
      var dec := DecodeRun(s, codes, |codes|, keys, reg, decodeSpecial);
      && enc.failure.None? && enc.session == s
      && dec.failure.None? && dec.session == s
      && Join(dec.tokens, "") == text
  {
    EncodePlain(s, text, |text|, keys, reg, encodeSpecial);
    var tokens := seq(|text|, i requires 0 <= i < |text| => EncodeChar(s.tables.enc, encodeSpecial, text[i]));
    forall i | 0 <= i < |text|
      ensures tokens[i] != [] && NoSpace(tokens[i]) && IsDigit(tokens[i][0])
      ensures DecodeToken(s.tables.dec, decodeSpecial, tokens[i]) == [text[i]]
    {
      TokenRoundTrip(s.tables, encodeSpecial, decodeSpecial, text[i]);
    }
    SplitJoin(tokens);
    forall i | 0 <= i < |tokens| ensures !Registry.Listed(Registry.ListLayouts(keys), tokens[i]) {
      CodeNotListed(keys, tokens[i]);
    }
    DecodePlain(s, tokens, |tokens|, keys, reg, decodeSpecial);
    var pieces := seq(|tokens|, i requires 0 <= i < |tokens| => DecodeToken(s.tables.dec, decodeSpecial, tokens[i]));
    assert pieces == seq(|text|, i requires 0 <= i < |text| => [text[i]]);
    JoinChars(text);
  }

  // ----- the class -----

  /** `EncodeDecode`: the two registries, the special tables, and the state of `Session`. */
  class EncodeDecode {
    /** The instance `__init__` creates itself; directive keys are checked against it. */
    const layoutFunctions: LayoutStore.LayoutFunctions
    /** The instance passed in; the grids come from it. */
    const layouts: LayoutStore.LayoutFunctions
    const encodeSpecial: map<string, string>
    const decodeSpecial: map<string, string>
    var encoding: map<string, string>
    var decoding: map<string, string>
    var layoutLowercase: Grid
    var layoutUppercase: Grid

    function State(): Session
      reads this
    {
      Session(Tables(encoding, decoding), layoutLowercase, layoutUppercase)
    }

    /**
     * `__init__`: a fresh `LayoutFunctions` loaded from the store, the given
     * registry, the special tables read through it, empty tables and grids.
     */
    constructor(layouts: LayoutStore.LayoutFunctions, storedLayouts: Option<Registry.Layouts>,
                storedSpecial: Option<SpecialMappings.Pairs>)
      requires storedLayouts.Some? ==> Registry.Valid(storedLayouts.value)
      requires storedSpecial.Some? ==> SpecialMappings.DistinctKeys(storedSpecial.value)
      ensures fresh(layoutFunctions) && this.layouts == layouts
      ensures layoutFunctions.layouts == if storedLayouts.Some? then storedLayouts.value else Registry.Empty
      ensures (encodeSpecial, decodeSpecial) == LayoutStore.GetSpecialMappings(storedSpecial)
      ensures State() == Initial
    {
      layoutFunctions := new LayoutStore.LayoutFunctions(storedLayouts);
      this.layouts := layouts;
      var mappings := LayoutStore.GetSpecialMappings(storedSpecial);
      encodeSpecial, decodeSpecial := mappings.0, mappings.1;
      encoding, decoding := map[], map[];
      layoutLowercase, layoutUppercase := [], [];
    }

    /** `initialize_layout_dictionaries`: the state becomes `Activate`'s, or stays on ValueError. */
    method InitializeLayoutDictionaries(key: string) returns (r: Result<()>)
      modifies this
      ensures r.Ok? <==> Activate(old(State()), layouts.layouts, key).Ok?
      ensures r.Ok? ==> State() == Activate(old(State()), layouts.layouts, key).value
      ensures r.Err? ==> r.error == Activate(old(State()), layouts.layouts, key).error && State() == old(State())
    {
      if key in encoding {
        return Ok(());
      }
      var grids := layouts.GetLayout(key);
      if grids.Err? {
        return Err(grids.error);
      }
      layoutLowercase, layoutUppercase := grids.value.0, grids.value.1;
      var t := FillGrid(Tables(encoding, decoding), '0', layoutLowercase);
      t := FillGrid(t, '1', layoutUppercase);
      encoding, decoding := t.enc, t.dec;
      r := Ok(());
    }

    /**
     * The `~` branch of one iteration of `encode_text`'s loop: the text up to
     * the next `~` is the key; a key `list_layouts` names is activated and
     * becomes the next token, an exception of the activation ends the scan.
     */
    method EncodeDirective(normalized: string, i: nat, tokens: seq<string>)
      returns (tokens': seq<string>, failure: Option<Error>)
      requires i < |normalized| && normalized[i] == '~'
      modifies this
      ensures EncodeStep(Run(tokens, old(State()), None), normalized, i, layoutFunctions.layouts, layouts.layouts, encodeSpecial)
        == Run(tokens', State(), failure)
    {
      ghost var run := Run(tokens, State(), None);
      EncodeTildeStep(run, normalized, i, layoutFunctions.layouts, layouts.layouts, encodeSpecial);
      var endMarker := Find(normalized, '~', i + 1);
      var key := Slice(normalized, i + 1, endMarker);
      var listed := Registry.Listed(layoutFunctions.ListLayouts(), key);
      assert listed == Registry.Listed(Registry.ListLayouts(layoutFunctions.layouts), key);
      tokens', failure := tokens, None;
      if listed {
        var res := InitializeLayoutDictionaries(key);
        if res.Err? {
          failure := Some(res.error);
        } else {
          tokens' := tokens + [key];
        }
      }
    }

    /**
     * `encode_text`: the tokens of the encode scan of `nfd(text)` joined by
     * single spaces, or the ValueError of an activation that failed; the
     * state is the scan's final state either way.
     */
    method EncodeText(nfd: string -> string, text: string) returns (r: Result<string>)
      modifies this
      ensures var normalized := nfd(text);
        var run := EncodeRun(old(State()), normalized, |normalized|, layoutFunctions.layouts, layouts.layouts, encodeSpecial);
        && State() == run.session
        && r == if run.failure.Some? then Err(run.failure.value) else Ok(Join(run.tokens, " "))
    {
      var normalized := nfd(text);
      ghost var s0 := State();
      ghost var keys, reg := layoutFunctions.layouts, layouts.layouts;
      var tokens: seq<string> := [];
      var i := 0;
      while i < |normalized|
        invariant 0 <= i <= |normalized|
        invariant EncodeRun(s0, normalized, i, keys, reg, encodeSpecial) == Run(tokens, State(), None)
      {
        ghost var next := EncodeStep(Run(tokens, State(), None), normalized, i, keys, reg, encodeSpecial);
        assert EncodeRun(s0, normalized, i + 1, keys, reg, encodeSpecial) == next;
        var ch := normalized[i];
        if ch == '~' {
          var failure;
          tokens, failure := EncodeDirective(normalized, i, tokens);
          if failure.Some? {
            EncodeFailureSticks(s0, normalized, i + 1, |normalized|, keys, reg, encodeSpecial);
            return Err(failure.value);
          }
        } else {
          tokens := tokens + [EncodeChar(encoding, encodeSpecial, ch)];
        }
        assert next == Run(tokens, State(), None);
        i := i + 1;
      }
      r := Ok(Join(tokens, " "));
    }

    /**
     * `decode_text`: the pieces of the decode scan of `encoded.split()`
     * concatenated, or the ValueError of an activation that failed; the
     * state is the scan's final state either way.
     */
    method DecodeText(encoded: string) returns (r: Result<string>)
      modifies this
      ensures var codes := Split(encoded);
        var run := DecodeRun(old(State()), codes, |codes|, layoutFunctions.layouts, layouts.layouts, decodeSpecial);
        && State() == run.session
        && r == if run.failure.Some? then Err(run.failure.value) else Ok(Join(run.tokens, ""))
    {
      var codes := Split(encoded);
      ghost var s0 := State();
      ghost var keys, reg := layoutFunctions.layouts, layouts.layouts;
      var pieces: seq<string> := [];
      var i := 0;
      while i < |codes|
        invariant 0 <= i <= |codes|
        invariant DecodeRun(s0, codes, i, keys, reg, decodeSpecial) == Run(pieces, State(), None)
      {
        var code := codes[i];
        ghost var next := DecodeStep(Run(pieces, State(), None), code, keys, reg, decodeSpecial);
        assert DecodeRun(s0, codes, i + 1, keys, reg, decodeSpecial) == next;
        var listed := Registry.Listed(layoutFunctions.ListLayouts(), code);
        assert listed == Registry.Listed(Registry.ListLayouts(keys), code);
        if listed {
          DecodeKeyStep(Run(pieces, State(), None), code, keys, reg, decodeSpecial);
          var res := InitializeLayoutDictionaries(code);
          if res.Err? {
            assert next.failure.Some?;
            DecodeFailureSticks(s0, codes, i + 1, |codes|, keys, reg, decodeSpecial);
            return Err(res.error);
          }
          pieces := pieces + ["~" + code + "~"];
        } else {
          pieces := pieces + [DecodeToken(decoding, decodeSpecial, code)];
        }
        assert next == Run(pieces, State(), None);
        i := i + 1;
      }
      r := Ok(Join(pieces, ""));
    }
  }
}
