/**
 * The state both `EncodeDecode` classes keep between calls, and their common
 * `initialize_layout_dictionaries`: the cache check, the grid lookup and
 * the build of both grids on top of whatever the tables already hold.
 */
module Engine {
  import opened PyText
  import opened Results
  import Registry
  import opened TableBuilder

  /** `encoding_dict`, `decoding_dict`, `layout_lowercase` and `layout_uppercase`. */
  datatype Session = Session(tables: Tables, lowercase: Grid, uppercase: Grid)

  /** The state right after `__init__`: empty tables, empty grids. */
  const Initial: Session := Session(NoTables, [], [])

  /**
   * `initialize_layout_dictionaries(key)`. A key that is already a string of
   * the encode table (the cache check) changes nothing; otherwise an unknown
   * key raises ValueError before anything is changed, and a known one sets
   * the current grids and writes them into the tables, which are never
   * cleared.
   */
  function Activate(s: Session, reg: Registry.Layouts, key: string): (r: Result<Session>)
    ensures key in s.tables.enc ==> r == Ok(s)
    ensures key !in s.tables.enc ==> (r.Ok? <==> Registry.HasKey(reg, key))
    ensures r.Err? ==> r.error == LayoutNotFound(key)
    ensures key !in s.tables.enc && r.Ok? ==>
      && r.value.tables == AddLayout(s.tables, r.value.lowercase, r.value.uppercase)
      && exists name :: (key, Registry.Layout(name, r.value.lowercase, r.value.uppercase)) in reg.items
  {
    if key in s.tables.enc then Ok(s)
    else
      match Registry.GetLayout(reg, key)
      case Err(e) => Err(e)
      case Ok(grids) => Ok(Session(AddLayout(s.tables, grids.0, grids.1), grids.0, grids.1))
  }

  /**
   * After a successful activation that built the tables, every non-blank
   * string of the layout's grids encodes to a code that decodes back to it,
   * and a string the layout does not hold keeps the encode entry it had.
   */
  lemma ActivateRoundTrip(s: Session, reg: Registry.Layouts, key: string, ch: string)
    requires key !in s.tables.enc && Registry.HasKey(reg, key)
    requires !IsBlank(ch)
    ensures var s' := Activate(s, reg, key).value;
      if Occurs(s'.lowercase, ch) || Occurs(s'.uppercase, ch) then
        ch in s'.tables.enc && s'.tables.enc[ch] in s'.tables.dec && s'.tables.dec[s'.tables.enc[ch]] == ch
      else
        Agrees(s.tables.enc, s'.tables.enc, ch)
  {
    var s' := Activate(s, reg, key).value;
    if Occurs(s'.lowercase, ch) || Occurs(s'.uppercase, ch) {
      LayoutRoundTrip(s.tables, s'.lowercase, s'.uppercase, ch);
    } else {
      var mid := AddGrid(s.tables, '0', s'.lowercase);
      GridEnc(s.tables, '0', s'.lowercase, ch);
      GridEnc(mid, '1', s'.uppercase, ch);
    }
  }

  /**
   * Stale entries: a string encoded by an earlier layout that the new
   * layout does not hold keeps its old code; when the new lowercase grid has
   * a different non-blank string in that code's cell, the code now decodes
   * to that string instead.
   */
  lemma ActivateLeavesStaleCode(s: Session, reg: Registry.Layouts, key: string, ch: string, r: nat, c: nat)
    requires key !in s.tables.enc && Registry.HasKey(reg, key)
    requires ch in s.tables.enc
    ensures var s' := Activate(s, reg, key).value;
      var lo := s'.lowercase;
      !IsBlank(ch) && !Occurs(lo, ch) && !Occurs(s'.uppercase, ch) && r < |lo| && c < |lo[r]|
      && !IsBlank(lo[r][c]) && s.tables.enc[ch] == Code('0', r, c)
      ==> ch in s'.tables.enc && s'.tables.enc[ch] == s.tables.enc[ch]
          && s'.tables.enc[ch] in s'.tables.dec && s'.tables.dec[s'.tables.enc[ch]] == lo[r][c] && lo[r][c] != ch
  {
    var s' := Activate(s, reg, key).value;
    var lo := s'.lowercase;
    if !IsBlank(ch) && !Occurs(lo, ch) && !Occurs(s'.uppercase, ch) && r < |lo| && c < |lo[r]|
      && !IsBlank(lo[r][c]) && s.tables.enc[ch] == Code('0', r, c)
    {
      var mid := AddGrid(s.tables, '0', lo);
      ActivateRoundTrip(s, reg, key, ch);
      GridDecAt(s.tables, '0', lo, r, c);
      CodeShape('0', r, c);
      GridDecOtherLayer(mid, '1', s'.uppercase, Code('0', r, c));
      if lo[r][c] == ch {
        OccursAt(lo, ch, r, c);
      }
    }
  }

  /** Activating the same layout twice leaves the tables as one activation left them. */
  lemma ActivateTwice(s: Session, reg: Registry.Layouts, key: string)
    requires Activate(s, reg, key).Ok?
    ensures var s1 := Activate(s, reg, key).value;
      Activate(s1, reg, key).Ok? && Activate(s1, reg, key).value.tables == s1.tables
  {
    var s1 := Activate(s, reg, key).value;
    if key !in s1.tables.enc {
      var s2 := Activate(s1, reg, key).value;
      assert key !in s.tables.enc;
      var l1 := Registry.Lookup(reg.items, key).value;
      assert (s1.lowercase, s1.uppercase) == (l1.lowercase, l1.uppercase);
      assert (s2.lowercase, s2.uppercase) == (l1.lowercase, l1.uppercase);
      var lo, up := AddGrid(NoTables, '0', s1.lowercase), AddGrid(NoTables, '1', s1.uppercase);
      LayoutIsMerge(s.tables, s1.lowercase, s1.uppercase);
      LayoutIsMerge(s1.tables, s1.lowercase, s1.uppercase);
      UnionIdempotent(s.tables.enc, lo.enc + up.enc);
      UnionIdempotent(s.tables.dec, lo.dec + up.dec);
    }
  }

  lemma UnionIdempotent(a: map<string, string>, b: map<string, string>)
    ensures (a + b) + b == a + b
  {
  }

  /** The first activation after `__init__` leaves coherent tables holding exactly that layout. */
  lemma ActivateFromInitial(reg: Registry.Layouts, key: string)
    requires Registry.HasKey(reg, key)
    ensures key !in Initial.tables.enc
    ensures var s := Activate(Initial, reg, key).value;
      && Coherent(s.tables)
      && (forall c :: c in s.tables.enc <==> !IsBlank(c) && (Occurs(s.lowercase, c) || Occurs(s.uppercase, c)))
  {
    var s := Activate(Initial, reg, key).value;
    FreshCoherent(s.lowercase, s.uppercase);
  }

  // ----- side conditions of the round trips -----

  /**
   * A special table fit to sit beside builder tables: every code is at
   * least two characters, starts with a digit, has '0' second (so it is
   * never a builder code), holds no whitespace, and decodes back.
   */
  ghost predicate SpecialCoherent(encodeSpecial: map<string, string>, decodeSpecial: map<string, string>)
  {
    forall c :: c in encodeSpecial ==>
      var v := encodeSpecial[c];
      2 <= |v| && IsDigit(v[0]) && v[1] == '0' && NoSpace(v) && v in decodeSpecial && decodeSpecial[v] == c
  }

  /** No registered layout key starts with a digit, so no code is mistaken for a directive. */
  ghost predicate KeysNotCodes(keys: Registry.Layouts)
  {
    forall i :: 0 <= i < |keys.items| ==> keys.items[i].0 == [] || !IsDigit(keys.items[i].0[0])
  }

  lemma CodeNotListed(keys: Registry.Layouts, token: string)
    requires KeysNotCodes(keys)
    requires token != [] && IsDigit(token[0])
    ensures !Registry.Listed(Registry.ListLayouts(keys), token)
  {
    Registry.ListedIffRegistered(keys);
  }
}
