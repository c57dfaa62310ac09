/**
 * The older combined variant (`EncodeDecode` in `keyboard_encoding.py`).
 * Its table building is the class version's (`Engine.Activate`), and its
 * `LayoutFunctions` behaves as `LayoutStore.LayoutFunctions`. Its scans
 * differ:
 *  - `encode_text` moves a manual index. After a directive it jumps to
 *    `end_marker + 1` and then steps once more, so with no closing `~`
 *    (`find` gives -1) it goes back to index 1, and the scan may never end;
 *  - an unknown character or token appends `None` whenever the special
 *    table is non-empty, and the final `join` then raises TypeError.
 * Tokens are therefore `Option<string>`, and the encode loop is specified
 * by a bounded iteration (`Iterate`) of its body (`Step`).
 */
module LegacyCodec {
  import opened PyText
  import opened Results
  import Registry
  import opened TableBuilder
  import opened Engine
  import LayoutStore
  import SpecialMappings
  import ClassCodec

  /**
   * The token of one non-`~` character: `encoding_dict.get(char) or
   * encode_special_mappings.get(char)` under the guard `char in
   * encoding_dict or encode_special_mappings`; `None` is what `dict.get`
   * gives for a missing key. U+FFFD is reached only when the character has
   * no table entry and the special table is empty.
   */
  function LegacyChar(enc: map<string, string>, special: map<string, string>, c: char): (token: Option<string>)
    ensures [c] in enc && enc[[c]] != [] ==> token == Some(enc[[c]])
    ensures [c] !in enc && |special| == 0 ==> token == Some(Replacement)
    ensures token.None? <==> ([c] in enc || |special| > 0) && !([c] in enc && enc[[c]] != []) && [c] !in special
  {
    if [c] in enc || |special| > 0 then
      var fromTable := if [c] in enc then enc[[c]] else [];
      if fromTable != [] then Some(fromTable)
      else if [c] in special then Some(special[[c]]) else None
    else Some(Replacement)
  }

  /** The piece of one non-key token, with the same `or`/`get` defect. */
  function LegacyToken(dec: map<string, string>, special: map<string, string>, code: string): (piece: Option<string>)
    ensures code in dec && dec[code] != [] ==> piece == Some(dec[code])
    ensures code !in dec && |special| == 0 ==> piece == Some(Replacement)
    ensures piece.None? <==> (code in dec || |special| > 0) && !(code in dec && dec[code] != []) && code !in special
  {
    if code in dec || |special| > 0 then
      var fromTable := if code in dec then dec[code] else [];
      if fromTable != [] then Some(fromTable)
      else if code in special then Some(special[code]) else None
    else Some(Replacement)
  }

  /**
   * `sep.join(tokens)`, walking the tokens from the front: the first `None`
   * raises TypeError, otherwise each string is followed by `sep` and the
   * join of the rest. So it fails exactly when some token is `None`, and
   * otherwise gives the strings joined.
   */
  function JoinTokens(tokens: seq<Option<string>>, sep: string): (r: Result<string>)
    ensures r.Err? <==> exists i :: 0 <= i < |tokens| && tokens[i].None?
    ensures r.Err? ==> r.error == JoinOfNone
    ensures r.Ok? ==> r.value == Join(seq(|tokens|, i requires 0 <= i < |tokens| => tokens[i].value), sep)
  {
    if tokens == [] then Ok([])
    else if tokens[0].None? then Err(JoinOfNone)
    else
      var rest := JoinTokens(tokens[1..], sep);
      assert forall i :: 1 <= i < |tokens| ==> tokens[1..][i - 1] == tokens[i];
      if rest.Err? then Err(JoinOfNone)
      else
        ghost var strings := seq(|tokens|, i requires 0 <= i < |tokens| => tokens[i].value);
        assert strings[1..] == seq(|tokens[1..]|, i requires 0 <= i < |tokens[1..]| => tokens[1..][i].value);
        if |tokens| == 1 then Ok(tokens[0].value)
        else Ok(tokens[0].value + sep + rest.value)
  }

  /** The state of the `while` loop: the index, the tokens, the engine's state, and the exception that ended it. */
  datatype Scan = Scan(i: nat, tokens: seq<Option<string>>, session: Session, failure: Option<Error>)

  /** The loop has stopped: the index ran off the end, or an exception ended it. */
  predicate Halted(st: Scan, text: string)
  {
    st.failure.Some? || st.i >= |text|
  }

  /** One pass of the `while` body, from position `st.i`. */
  function Step(st: Scan, text: string, keys: Registry.Layouts, reg: Registry.Layouts,
                special: map<string, string>): Scan
    requires !Halted(st, text)
  {
    var i := st.i;
    if text[i] == '~' then
      var endMarker := Find(text, '~', i + 1);
      var key := Slice(text, i + 1, endMarker);
      if Registry.Listed(Registry.ListLayouts(keys), key) then
        match Activate(st.session, reg, key)
        case Err(e) => st.(failure := Some(e))
        case Ok(s') => Scan(endMarker + 2, st.tokens + [Some(key)], s', None)
      else st.(i := i + 1)
    else st.(i := i + 1, tokens := st.tokens + [LegacyChar(st.session.tables.enc, special, text[i])])
  }

  /** At most `n` passes of the loop body, stopping as soon as the loop would. */
  function Iterate(st: Scan, text: string, n: nat, keys: Registry.Layouts, reg: Registry.Layouts,
                   special: map<string, string>): Scan
    decreases n
  {
    if n == 0 || Halted(st, text) then st
    else Iterate(Step(st, text, keys, reg, special), text, n - 1, keys, reg, special)
  }

  /** The state where `encode_text` starts. */
  function Start(s: Session): Scan
  {
    Scan(0, [], s, None)
  }

  /** What `encode_text` returns once its loop has stopped in `st`. */
  function EncodeOutcome(st: Scan): Result<string>
  {
    if st.failure.Some? then Err(st.failure.value) else JoinTokens(st.tokens, " ")
  }

  // ----- the encode loop -----

  /** Once the loop has stopped, more passes change nothing: the final state does not depend on the bound. */
  lemma {:induction false} IterateStable(st: Scan, text: string, n: nat, m: nat, keys: Registry.Layouts,
                                         reg: Registry.Layouts, special: map<string, string>)
    requires n <= m
    requires Halted(Iterate(st, text, n, keys, reg, special), text)
    ensures Iterate(st, text, m, keys, reg, special) == Iterate(st, text, n, keys, reg, special)
    decreases n
  {
    if n > 0 && !Halted(st, text) {
      IterateStable(Step(st, text, keys, reg, special), text, n - 1, m - 1, keys, reg, special);
    }
  }

  /** Any two bounds after which the loop has stopped give the same final state. */
  lemma HaltedUnique(st: Scan, text: string, n: nat, m: nat, keys: Registry.Layouts,
                     reg: Registry.Layouts, special: map<string, string>)
    requires Halted(Iterate(st, text, n, keys, reg, special), text)
    requires Halted(Iterate(st, text, m, keys, reg, special), text)
    ensures Iterate(st, text, m, keys, reg, special) == Iterate(st, text, n, keys, reg, special)
  {
    if n <= m {
      IterateStable(st, text, n, m, keys, reg, special);
    } else {
      IterateStable(st, text, m, n, keys, reg, special);
    }
  }

  /**
   * A valid directive with a closing marker at `end` emits the bare key and
   * resumes at `end + 2`: the character right after the closing `~` gives
   * no token.
   */
  lemma DirectiveSkipsPastMarker(st: Scan, text: string, keys: Registry.Layouts, reg: Registry.Layouts,
                                 special: map<string, string>)
    requires !Halted(st, text) && text[st.i] == '~'
    ensures var endMarker := Find(text, '~', st.i + 1);
      var key := Slice(text, st.i + 1, endMarker);
      var st' := Step(st, text, keys, reg, special);
      0 <= endMarker && Registry.HasKey(keys, key) && Activate(st.session, reg, key).Ok? ==>
        && key == text[st.i + 1..endMarker]
        && st' == Scan(endMarker + 2, st.tokens + [Some(key)], Activate(st.session, reg, key).value, None)
  {
    Registry.ListedIffRegistered(keys);
  }

  /** A `~` whose candidate is not a listed key emits nothing and moves on by one. */
  lemma TildeNotKey(st: Scan, text: string, keys: Registry.Layouts, reg: Registry.Layouts,
                    special: map<string, string>)
    requires !Halted(st, text) && text[st.i] == '~'
    requires !Registry.HasKey(keys, Slice(text, st.i + 1, Find(text, '~', st.i + 1)))
    ensures Step(st, text, keys, reg, special) == st.(i := st.i + 1)
  {
    Registry.ListedIffRegistered(keys);
  }

  /**
   * Non-termination: let the only `~` of the text sit at index `p >= 1`, with
   * its candidate `text[p+1:-1]` a key of both registries. Every pass from
   * an index at most `p` either encodes a plain character and moves on by
   * one, or reaches the `~`, finds no closing marker (`find` gives -1) and
   * so goes back to index 1. The index never passes `p`, so the loop never
   * stops, whatever the bound.
   */
  lemma {:induction false} LastTildeLoops(st: Scan, text: string, p: nat, n: nat, keys: Registry.Layouts,
                                          reg: Registry.Layouts, special: map<string, string>)
    requires 1 <= p < |text| && text[p] == '~'
    requires forall j :: 0 <= j < |text| && j != p ==> text[j] != '~'
    requires Registry.HasKey(keys, Slice(text, p + 1, -1)) && Registry.HasKey(reg, Slice(text, p + 1, -1))
    requires st.i <= p && st.failure.None?
    ensures !Halted(Iterate(st, text, n, keys, reg, special), text)
    decreases n
  {
    if n > 0 {
      var st' := Step(st, text, keys, reg, special);
      if st.i == p {
        assert Find(text, '~', p + 1) == -1;
        Registry.ListedIffRegistered(keys);
        assert st'.i == 1 && st'.failure.None?;
      } else {
        assert st'.i == st.i + 1 && st'.failure.None?;
      }
      LastTildeLoops(st', text, p, n - 1, keys, reg, special);
    }
  }

  /**
   * From the start: when the text's only `~` is at an index `p >= 1` and
   * `text[p+1:-1]` is a key of both registries (as for "ab~qyZ" with "qy"
   * registered), `encode_text` does not terminate.
   */
  lemma EncodeDiverges(s: Session, text: string, p: nat, keys: Registry.Layouts, reg: Registry.Layouts,
                       special: map<string, string>)
    requires 1 <= p < |text| && text[p] == '~'
    requires forall j :: 0 <= j < |text| && j != p ==> text[j] != '~'
    requires Registry.HasKey(keys, Slice(text, p + 1, -1)) && Registry.HasKey(reg, Slice(text, p + 1, -1))
    ensures forall n :: !Halted(Iterate(Start(s), text, n, keys, reg, special), text)
  {
    forall n: nat ensures !Halted(Iterate(Start(s), text, n, keys, reg, special), text) {
      LastTildeLoops(Start(s), text, p, n, keys, reg, special);
    }
  }

  /** The text "ab~qyZ" of a registered key "qy" makes `encode_text` run forever. */
  lemma EncodeDivergesOnExample(s: Session, keys: Registry.Layouts, reg: Registry.Layouts, special: map<string, string>)
    requires Registry.HasKey(keys, "qy") && Registry.HasKey(reg, "qy")
    ensures forall n :: !Halted(Iterate(Start(s), "ab~qyZ", n, keys, reg, special), "ab~qyZ")
  {
    var text := "ab~qyZ";
    assert Slice(text, 3, -1) == text[3..5] == "qy";
    EncodeDiverges(s, text, 2, keys, reg, special);
  }

  /**
   * Text without `~` is scanned one character per pass: after `n` passes the
   * index is `n` and there is one token per character, the state untouched.
   */
  lemma {:induction false} PlainScan(s: Session, text: string, n: nat, keys: Registry.Layouts,
                                     reg: Registry.Layouts, special: map<string, string>)
    requires n <= |text|
    requires forall j :: 0 <= j < |text| ==> text[j] != '~'
    ensures Iterate(Start(s), text, n, keys, reg, special)
      == Scan(n, seq(n, j requires 0 <= j < n => LegacyChar(s.tables.enc, special, text[j])), s, None)
  {
    if n > 0 {
      PlainScan(s, text, n - 1, keys, reg, special);
      var prev := Iterate(Start(s), text, n - 1, keys, reg, special);
      IterateLast(Start(s), text, n - 1, keys, reg, special);
      var toks := seq(n, j requires 0 <= j < n => LegacyChar(s.tables.enc, special, text[j]));
      assert toks == prev.tokens + [LegacyChar(s.tables.enc, special, text[n - 1])];
    }
  }

  /** One more pass after `n`: the loop body applied to where `n` passes left off. */
  lemma {:induction false} IterateLast(st: Scan, text: string, n: nat, keys: Registry.Layouts,
                                       reg: Registry.Layouts, special: map<string, string>)
    requires !Halted(Iterate(st, text, n, keys, reg, special), text)
    ensures Iterate(st, text, n + 1, keys, reg, special)
      == Step(Iterate(st, text, n, keys, reg, special), text, keys, reg, special)
    decreases n
  {
    if n > 0 {
      assert !Halted(st, text);
      IterateLast(Step(st, text, keys, reg, special), text, n - 1, keys, reg, special);
    }
  }

  /**
   * The crash: with a non-empty special table, text without `~` holding a
   * character known to neither table makes `encode_text` raise TypeError
   * (the loop itself stops after `|text|` passes).
   */
  lemma UnknownCharCrashes(s: Session, text: string, keys: Registry.Layouts, reg: Registry.Layouts,
                           special: map<string, string>, k: nat)
    requires forall j :: 0 <= j < |text| ==> text[j] != '~'
    requires |special| > 0 && k < |text| && [text[k]] !in s.tables.enc && [text[k]] !in special
    ensures Halted(Iterate(Start(s), text, |text|, keys, reg, special), text)
    ensures EncodeOutcome(Iterate(Start(s), text, |text|, keys, reg, special)) == Err(JoinOfNone)
  {
    PlainScan(s, text, |text|, keys, reg, special);
    var tokens := seq(|text|, j requires 0 <= j < |text| => LegacyChar(s.tables.enc, special, text[j]));
    assert tokens[k].None?;
  }

  /**
   * Where every character is known (a table entry or a special code), the
   * legacy scan of text without `~` gives the class version's tokens.
   */
  lemma PlainAgreesWithClassVersion(s: Session, text: string, keys: Registry.Layouts, reg: Registry.Layouts,
                                    special: map<string, string>)
    requires forall j :: 0 <= j < |text| ==> text[j] != '~'
    requires forall j :: 0 <= j < |text| ==>
      ([text[j]] in s.tables.enc && s.tables.enc[[text[j]]] != []) || [text[j]] in special
    ensures EncodeOutcome(Iterate(Start(s), text, |text|, keys, reg, special))
      == Ok(Join(seq(|text|, j requires 0 <= j < |text| => ClassCodec.EncodeChar(s.tables.enc, special, text[j])), " "))
  {
    PlainScan(s, text, |text|, keys, reg, special);
    var tokens := seq(|text|, j requires 0 <= j < |text| => LegacyChar(s.tables.enc, special, text[j]));
    assert forall j :: 0 <= j < |text| ==> tokens[j] == Some(ClassCodec.EncodeChar(s.tables.enc, special, text[j]));
    assert seq(|tokens|, j requires 0 <= j < |tokens| => tokens[j].value)
      == seq(|text|, j requires 0 <= j < |text| => ClassCodec.EncodeChar(s.tables.enc, special, text[j]));
  }

  // ----- the decode loop -----

  datatype Pieces = Pieces(pieces: seq<Option<string>>, session: Session, failure: Option<Error>)

  /** One iteration of the `for code in codes` loop of the legacy `decode_text`. */
  function DecodeStep(run: Pieces, code: string, keys: Registry.Layouts, reg: Registry.Layouts,
                      special: map<string, string>): Pieces
  {
    if run.failure.Some? then run
    else if Registry.Listed(Registry.ListLayouts(keys), code) then
      match Activate(run.session, reg, code)
      case Err(e) => run.(failure := Some(e))
      case Ok(s') => Pieces(run.pieces + [Some("~" + code + "~")], s', None)
    else run.(pieces := run.pieces + [LegacyToken(run.session.tables.dec, special, code)])
  }

  function DecodeRun(s: Session, codes: seq<string>, n: nat, keys: Registry.Layouts, reg: Registry.Layouts,
                     special: map<string, string>): Pieces
    requires n <= |codes|
  {
    if n == 0 then Pieces([], s, None)
    else DecodeStep(DecodeRun(s, codes, n - 1, keys, reg, special), codes[n - 1], keys, reg, special)
  }

  /** What the legacy `decode_text` returns after its loop. */
  function DecodeOutcome(run: Pieces): Result<string>
  {
    if run.failure.Some? then Err(run.failure.value) else JoinTokens(run.pieces, "")
  }

  lemma {:induction false} DecodeFailureSticks(s: Session, codes: seq<string>, n: nat, m: nat, keys: Registry.Layouts,
                                               reg: Registry.Layouts, special: map<string, string>)
    requires n <= m <= |codes|
    requires DecodeRun(s, codes, n, keys, reg, special).failure.Some?
    ensures DecodeRun(s, codes, m, keys, reg, special) == DecodeRun(s, codes, n, keys, reg, special)
    decreases m
  {
    if m > n {
      DecodeFailureSticks(s, codes, n, m - 1, keys, reg, special);
    }
  }

  /** Tokens none of which is a layout key give one piece each and leave the state as it was. */
  lemma {:induction false} DecodePlain(s: Session, codes: seq<string>, n: nat, keys: Registry.Layouts,
                                       reg: Registry.Layouts, special: map<string, string>)
    requires n <= |codes|
    requires forall j :: 0 <= j < |codes| ==> !Registry.HasKey(keys, codes[j])
    ensures DecodeRun(s, codes, n, keys, reg, special)
      == Pieces(seq(n, j requires 0 <= j < n => LegacyToken(s.tables.dec, special, codes[j])), s, None)
  {
    if n > 0 {
      Registry.ListedIffRegistered(keys);
      DecodePlain(s, codes, n - 1, keys, reg, special);
    }
  }

  /**
   * The decode crash: with a non-empty special table, a token that is no
   * layout key, no table code and no special code makes `decode_text` raise
   * TypeError, when no token is a layout key.
   */
  lemma UnknownTokenCrashes(s: Session, codes: seq<string>, keys: Registry.Layouts, reg: Registry.Layouts,
                            special: map<string, string>, k: nat)
    requires forall j :: 0 <= j < |codes| ==> !Registry.HasKey(keys, codes[j])
    requires |special| > 0 && k < |codes| && codes[k] !in s.tables.dec && codes[k] !in special
    ensures DecodeOutcome(DecodeRun(s, codes, |codes|, keys, reg, special)) == Err(JoinOfNone)
  {
    DecodePlain(s, codes, |codes|, keys, reg, special);
    var pieces := seq(|codes|, j requires 0 <= j < |codes| => LegacyToken(s.tables.dec, special, codes[j]));
    assert pieces[k].None?;
  }

  /** The decode step at a listed key, unfolded for the class's loop. */
  lemma DecodeKeyStep(run: Pieces, code: string, keys: Registry.Layouts, reg: Registry.Layouts,
                      special: map<string, string>)
    requires run.failure.None? && Registry.Listed(Registry.ListLayouts(keys), code)
    ensures var a := Activate(run.session, reg, code);
      DecodeStep(run, code, keys, reg, special)
        == if a.Ok? then Pieces(run.pieces + [Some("~" + code + "~")], a.value, None)
           else Pieces(run.pieces, run.session, Some(a.error))
  {
  }

  /** A token that is a layout key of both registries activates it and gives back `~key~`. */
  lemma KeyTokenRestoresDirective(run: Pieces, code: string, keys: Registry.Layouts, reg: Registry.Layouts,
                                  special: map<string, string>)
    requires run.failure.None? && Registry.HasKey(keys, code) && Registry.HasKey(reg, code)
    ensures Activate(run.session, reg, code).Ok?
    ensures DecodeStep(run, code, keys, reg, special)
      == Pieces(run.pieces + [Some("~" + code + "~")], Activate(run.session, reg, code).value, None)
  {
    Registry.ListedIffRegistered(keys);
  }

  // ----- the class -----

  /** The legacy `EncodeDecode`: as `ClassCodec.EncodeDecode`, with the legacy scans. */
  class EncodeDecode {
    const layoutFunctions: LayoutStore.LayoutFunctions
    const layouts: LayoutStore.LayoutFunctions
    const encodeSpecial: map<string, string>
    const decodeSpecial: map<string, string>
    var encoding: map<string, string>
    var decoding: map<string, string>
    var layoutLowercase: Grid
    var layoutUppercase: Grid

    function State(): Session
      reads this
    {
      Session(Tables(encoding, decoding), layoutLowercase, layoutUppercase)
    }

    constructor(layouts: LayoutStore.LayoutFunctions, storedLayouts: Option<Registry.Layouts>,
                storedSpecial: Option<SpecialMappings.Pairs>)
      requires storedLayouts.Some? ==> Registry.Valid(storedLayouts.value)
      requires storedSpecial.Some? ==> SpecialMappings.DistinctKeys(storedSpecial.value)
      ensures fresh(layoutFunctions) && this.layouts == layouts
      ensures layoutFunctions.layouts == if storedLayouts.Some? then storedLayouts.value else Registry.Empty
      ensures (encodeSpecial, decodeSpecial) == LayoutStore.GetSpecialMappings(storedSpecial)
      ensures State() == Initial
    {
      layoutFunctions := new LayoutStore.LayoutFunctions(storedLayouts);
      this.layouts := layouts;
      var mappings := LayoutStore.GetSpecialMappings(storedSpecial);
      encodeSpecial, decodeSpecial := mappings.0, mappings.1;
      encoding, decoding := map[], map[];
      layoutLowercase, layoutUppercase := [], [];
    }

    /** `initialize_layout_dictionaries`, the same as the class version's. */
    method InitializeLayoutDictionaries(key: string) returns (r: Result<()>)
      modifies this
      ensures r.Ok? <==> Activate(old(State()), layouts.layouts, key).Ok?
      ensures r.Ok? ==> State() == Activate(old(State()), layouts.layouts, key).value
      ensures r.Err? ==> r.error == Activate(old(State()), layouts.layouts, key).error && State() == old(State())
    {
      if key in encoding {
        return Ok(());
      }
      var grids := layouts.GetLayout(key);
      if grids.Err? {
        return Err(grids.error);
      }
      layoutLowercase, layoutUppercase := grids.value.0, grids.value.1;
      var t := FillGrid(Tables(encoding, decoding), '0', layoutLowercase);
      t := FillGrid(t, '1', layoutUppercase);
      encoding, decoding := t.enc, t.dec;
      r := Ok(());
    }

    /**
     * The `~` branch of one pass of `encode_text`'s loop, with the index
     * step that ends the pass: a listed key is activated, emitted, and the
     * scan resumes after the closing marker; an unlisted one moves on by one
     * character; an exception of the activation ends the scan where it is.
     */
    method EncodeDirective(normalized: string, i: nat, encodedText: seq<Option<string>>)
      returns (i': nat, encodedText': seq<Option<string>>, failure: Option<Error>)
      requires i < |normalized| && normalized[i] == '~'
      modifies this
      ensures Step(Scan(i, encodedText, old(State()), None), normalized, layoutFunctions.layouts, layouts.layouts, encodeSpecial)
        == Scan(i', encodedText', State(), failure)
    {
      var endMarker := Find(normalized, '~', i + 1);
      var key := Slice(normalized, i + 1, endMarker);
      var listed := Registry.Listed(layoutFunctions.ListLayouts(), key);
      assert listed == Registry.Listed(Registry.ListLayouts(layoutFunctions.layouts), key);
      i', encodedText', failure := i + 1, encodedText, None;
      if listed {
        var res := InitializeLayoutDictionaries(key);
        if res.Err? {
          i', failure := i, Some(res.error);
        } else {
          i', encodedText' := endMarker + 2, encodedText + [Some(key)];
        }
      }
    }

    /**
     * `encode_text`, for inputs on which its loop stops (`EncodeDiverges`
     * shows inputs on which it does not): the outcome and the state are the
     * ones the bounded iteration reaches once it has stopped.
     */
    method EncodeText(nfd: string -> string, text: string) returns (r: Result<string>)
      requires exists n: nat :: Halted(Iterate(Start(State()), nfd(text), n, layoutFunctions.layouts, layouts.layouts, encodeSpecial), nfd(text))
      modifies this
      ensures forall n: nat ::
        var final := Iterate(Start(old(State())), nfd(text), n, layoutFunctions.layouts, layouts.layouts, encodeSpecial);
        Halted(final, nfd(text)) ==> r == EncodeOutcome(final) && State() == final.session
    {
      var normalized := nfd(text);
      ghost var keys, reg := layoutFunctions.layouts, layouts.layouts;
      ghost var st0 := Start(State());
      ghost var fuel: nat :| Halted(Iterate(st0, normalized, fuel, keys, reg, encodeSpecial), normalized);
      ghost var total := fuel;
      var encodedText: seq<Option<string>> := [];
      var i: nat := 0;
      ghost var final := Iterate(st0, normalized, total, keys, reg, encodeSpecial);
      while i < |normalized|
        invariant Halted(final, normalized)
        invariant final == Iterate(Scan(i, encodedText, State(), None), normalized, fuel, keys, reg, encodeSpecial)
        decreases fuel
      {
        ghost var cur := Scan(i, encodedText, State(), None);
        IterateUnfold(final, cur, normalized, fuel, keys, reg, encodeSpecial);
        ghost var next := Step(cur, normalized, keys, reg, encodeSpecial);
        var ch := normalized[i];
        if ch == '~' {
          var failure;
          i, encodedText, failure := EncodeDirective(normalized, i, encodedText);
          if failure.Some? {
            ForallHalted(st0, normalized, total, keys, reg, encodeSpecial);
            return Err(failure.value);
          }
        } else {
          StepChar(cur, normalized, keys, reg, encodeSpecial);
          encodedText := encodedText + [LegacyChar(encoding, encodeSpecial, ch)];
          i := i + 1;
        }
        assert next == Scan(i, encodedText, State(), None);
        fuel := fuel - 1;
      }
      ForallHalted(st0, normalized, total, keys, reg, encodeSpecial);
      r := JoinTokens(encodedText, " ");
    }

    /** The branch of `decode_text`'s loop for a listed key: activate it and emit `~key~`. */
    method DecodeKey(code: string, decodedText: seq<Option<string>>)
      returns (decodedText': seq<Option<string>>, failure: Option<Error>)
      requires Registry.Listed(Registry.ListLayouts(layoutFunctions.layouts), code)
      modifies this
      ensures DecodeStep(Pieces(decodedText, old(State()), None), code, layoutFunctions.layouts, layouts.layouts, decodeSpecial)
        == Pieces(decodedText', State(), failure)
    {
      DecodeKeyStep(Pieces(decodedText, State(), None), code, layoutFunctions.layouts, layouts.layouts, decodeSpecial);
      var res := InitializeLayoutDictionaries(code);
      if res.Err? {
        return decodedText, Some(res.error);
      }
      decodedText', failure := decodedText + [Some("~" + code + "~")], None;
    }

    /**
     * The legacy `decode_text`: the outcome of the decode scan of
     * `encoded.split()`, TypeError included, and its final state.
     */
    method DecodeText(encoded: string) returns (r: Result<string>)
      modifies this
      ensures var codes := Split(encoded);
        var run := DecodeRun(old(State()), codes, |codes|, layoutFunctions.layouts, layouts.layouts, decodeSpecial);
        && State() == run.session
        && r == DecodeOutcome(run)
    {
      var codes := Split(encoded);
      ghost var s0 := State();
      ghost var keys, reg := layoutFunctions.layouts, layouts.layouts;
      var decodedText: seq<Option<string>> := [];
      var i := 0;
      while i < |codes|
        invariant 0 <= i <= |codes|
        invariant DecodeRun(s0, codes, i, keys, reg, decodeSpecial) == Pieces(decodedText, State(), None)
      {
        ghost var next := DecodeStep(Pieces(decodedText, State(), None), codes[i], keys, reg, decodeSpecial);
        assert DecodeRun(s0, codes, i + 1, keys, reg, decodeSpecial) == next;
        var code := codes[i];
        var listed := Registry.Listed(layoutFunctions.ListLayouts(), code);
        assert listed == Registry.Listed(Registry.ListLayouts(keys), code);
        if listed {
          var failure;
          decodedText, failure := DecodeKey(code, decodedText);
          if failure.Some? {
            DecodeFailureSticks(s0, codes, i + 1, |codes|, keys, reg, decodeSpecial);
            return Err(failure.value);
          }
        } else {
          decodedText := decodedText + [LegacyToken(decoding, decodeSpecial, code)];
        }
        assert next == Pieces(decodedText, State(), None);
        i := i + 1;
      }
      r := JoinTokens(decodedText, "");
    }
  }

  /** A state from which the loop goes on is one pass away from the next, with one pass less to go. */
  lemma IterateUnfold(final: Scan, cur: Scan, text: string, fuel: nat, keys: Registry.Layouts,
                      reg: Registry.Layouts, special: map<string, string>)
    requires Halted(final, text)
    requires final == Iterate(cur, text, fuel, keys, reg, special)
    requires !Halted(cur, text)
    ensures fuel > 0
    ensures final == Iterate(Step(cur, text, keys, reg, special), text, fuel - 1, keys, reg, special)
  {
  }

  /** A pass at any character but `~` emits its token and moves on by one. */
  lemma StepChar(st: Scan, text: string, keys: Registry.Layouts, reg: Registry.Layouts,
                 special: map<string, string>)
    requires !Halted(st, text) && text[st.i] != '~'
    ensures Step(st, text, keys, reg, special)
      == Scan(st.i + 1, st.tokens + [LegacyChar(st.session.tables.enc, special, text[st.i])], st.session, None)
  {
  }

  /** Every bound after which the loop has stopped names the same final state as `total`, once `total` has. */
  lemma ForallHalted(st: Scan, text: string, total: nat, keys: Registry.Layouts, reg: Registry.Layouts,
                     special: map<string, string>)
    requires Halted(Iterate(st, text, total, keys, reg, special), text)
    ensures forall n: nat :: Halted(Iterate(st, text, n, keys, reg, special), text) ==>
      Iterate(st, text, n, keys, reg, special) == Iterate(st, text, total, keys, reg, special)
  {
    forall n: nat | Halted(Iterate(st, text, n, keys, reg, special), text)
      ensures Iterate(st, text, n, keys, reg, special) == Iterate(st, text, total, keys, reg, special)
    {
      HaltedUnique(st, text, total, n, keys, reg, special);
    }
  }
}
