/**
 * The JSON-backed registry `LayoutFunctions`. The contents of
 * `layouts.json` and `special_mappings.json` are parameters: `None` stands
 * for a file that is missing or is not valid JSON, which the source logs
 * and replaces by an empty dict.
 */
module LayoutStore {
  import opened Results
  import Registry
  import SpecialMappings

  type Grid = Registry.Grid

  class LayoutFunctions {
    var layouts: Registry.Layouts

    /**
     * `__init__` with `load_layouts`: the stored registry, or an empty one
     * when the file cannot be read. What `json.load` gives is a dict, so the
     * stored items never repeat a key.
     */
    constructor(stored: Option<Registry.Layouts>)
      requires stored.Some? ==> Registry.Valid(stored.value)
      ensures Registry.Valid(layouts)
      ensures layouts == if stored.Some? then stored.value else Registry.Empty
    {
      layouts := if stored.Some? then stored.value else Registry.Empty;
    }

    /** `get_layout`: the stored grids, or ValueError for an unknown key. */
    function GetLayout(key: string): (r: Result<(Grid, Grid)>)
      reads this
      ensures r.Ok? <==> Registry.HasKey(layouts, key)
      ensures r.Ok? ==> exists name :: (key, Registry.Layout(name, r.value.0, r.value.1)) in layouts.items
      ensures r.Err? ==> r.error == LayoutNotFound(key)
    {
      Registry.GetLayout(layouts, key)
    }

    /** `get_layout_name`: the stored name, or ValueError for an unknown key. */
    function GetLayoutName(key: string): (r: Result<string>)
      reads this
      ensures r.Ok? <==> Registry.HasKey(layouts, key)
      ensures r.Ok? ==> exists lo, up :: (key, Registry.Layout(r.value, lo, up)) in layouts.items
      ensures r.Err? ==> r.error == LayoutNotFound(key)
    {
      Registry.GetLayoutName(layouts, key)
    }

    /** `list_layouts`: one pair per stored layout, and the listed keys are exactly the stored ones. */
    function ListLayouts(): (r: seq<(string, string)>)
      reads this
      ensures |r| == |layouts.items|
      ensures forall key :: Registry.Listed(r, key) <==> Registry.HasKey(layouts, key)
    {
      Registry.ListedIffRegistered(layouts);
      Registry.ListLayouts(layouts)
    }

    /**
     * `add_layout`: ValueError for a present key; otherwise the record is
     * stored under the key (the rewrite of `layouts.json` is not modelled).
     */
    method AddLayout(key: string, name: string, lowercase: Grid, uppercase: Grid) returns (r: Result<()>)
      modifies this
      ensures match Registry.AddLayout(old(layouts), key, name, lowercase, uppercase)
        case Ok(ls) => r == Ok(()) && layouts == ls
        case Err(e) => r == Err(e) && layouts == old(layouts)
    {
      match Registry.AddLayout(layouts, key, name, lowercase, uppercase)
      case Ok(ls) =>
        layouts := ls;
        r := Ok(());
      case Err(e) =>
        r := Err(e);
    }
  }

  /**
   * `get_special_mappings`: the stored table and its inverse, or two empty
   * tables when the file cannot be read. The stored items are those of the
   * dict `json.load` gives, so no character repeats. The encode table holds
   * exactly the stored characters with their codes; the decode table holds
   * exactly the stored codes, each decoding to a character that encodes to
   * it, and to the character of the LAST item with that code.
   */
  function GetSpecialMappings(stored: Option<SpecialMappings.Pairs>): (r: (map<string, string>, map<string, string>))
    requires stored.Some? ==> SpecialMappings.DistinctKeys(stored.value)
    ensures stored.None? ==> r.0 == map[] && r.1 == map[]
    ensures stored.Some? ==> r.0 == SpecialMappings.MapOf(stored.value)
    ensures stored.Some? ==> forall i :: 0 <= i < |stored.value| ==>
      stored.value[i].0 in r.0 && r.0[stored.value[i].0] == stored.value[i].1
    ensures stored.Some? ==> forall k :: k in r.0 ==> exists i :: 0 <= i < |stored.value| && stored.value[i] == (k, r.0[k])
    ensures stored.Some? ==> forall v :: v in r.1 <==> exists i :: 0 <= i < |stored.value| && stored.value[i].1 == v
    ensures stored.Some? ==> forall v :: v in r.1 ==> r.1[v] in r.0 && r.0[r.1[v]] == v
    ensures stored.Some? ==> forall i :: 0 <= i < |stored.value| ==>
      var (k, v) := stored.value[i];
      v in r.1 && (r.1[v] == k || exists j :: i < j < |stored.value| && stored.value[j] == (r.1[v], v))
  {
    match stored
    case None => (map[], map[])
    case Some(pairs) =>
      StoredTablesFit(pairs);
      (SpecialMappings.MapOf(pairs), SpecialMappings.Invert(pairs))
  }

  /** The facts `GetSpecialMappings` promises, for the items of a dict. */
  lemma StoredTablesFit(pairs: SpecialMappings.Pairs)
    requires SpecialMappings.DistinctKeys(pairs)
    ensures forall i :: 0 <= i < |pairs| ==>
      pairs[i].0 in SpecialMappings.MapOf(pairs) && SpecialMappings.MapOf(pairs)[pairs[i].0] == pairs[i].1
    ensures forall k :: k in SpecialMappings.MapOf(pairs) ==>
      exists i :: 0 <= i < |pairs| && pairs[i] == (k, SpecialMappings.MapOf(pairs)[k])
    ensures forall v :: v in SpecialMappings.Invert(pairs) <==> exists i :: 0 <= i < |pairs| && pairs[i].1 == v
    ensures forall v :: v in SpecialMappings.Invert(pairs) ==>
      SpecialMappings.Invert(pairs)[v] in SpecialMappings.MapOf(pairs)
      && SpecialMappings.MapOf(pairs)[SpecialMappings.Invert(pairs)[v]] == v
    ensures forall i :: 0 <= i < |pairs| ==>
      var (k, v) := pairs[i];
      v in SpecialMappings.Invert(pairs)
      && (SpecialMappings.Invert(pairs)[v] == k || exists j :: i < j < |pairs| && pairs[j] == (SpecialMappings.Invert(pairs)[v], v))
  {
    var enc, dec := SpecialMappings.MapOf(pairs), SpecialMappings.Invert(pairs);
    forall i | 0 <= i < |pairs| ensures pairs[i].0 in enc && enc[pairs[i].0] == pairs[i].1 {
      SpecialMappings.MapOfAt(pairs, i);
    }
    forall k | k in enc ensures exists i :: 0 <= i < |pairs| && pairs[i] == (k, enc[k]) {
      SpecialMappings.MapOfLastWins(pairs, k);
    }
    forall v ensures v in dec <==> exists i :: 0 <= i < |pairs| && pairs[i].1 == v {
      SpecialMappings.InvertLastWins(pairs, v);
    }
    forall v | v in dec ensures dec[v] in enc && enc[dec[v]] == v {
      SpecialMappings.InvertLastWins(pairs, v);
      var i :| 0 <= i < |pairs| && pairs[i] == (dec[v], v) && forall j :: i < j < |pairs| ==> pairs[j].1 != v;
      SpecialMappings.MapOfAt(pairs, i);
    }
    InvertCoversValues(pairs);
  }

  lemma InvertCoversValues(pairs: SpecialMappings.Pairs)
    ensures forall i :: 0 <= i < |pairs| ==>
      var (k, v) := pairs[i];
      v in SpecialMappings.Invert(pairs)
      && (SpecialMappings.Invert(pairs)[v] == k || exists j :: i < j < |pairs| && pairs[j] == (SpecialMappings.Invert(pairs)[v], v))
  {
    forall i | 0 <= i < |pairs|
      ensures var (k, v) := pairs[i];
        v in SpecialMappings.Invert(pairs)
        && (SpecialMappings.Invert(pairs)[v] == k || exists j :: i < j < |pairs| && pairs[j] == (SpecialMappings.Invert(pairs)[v], v))
    {
      var v := pairs[i].1;
      SpecialMappings.InvertLastWins(pairs, v);
      var j :| 0 <= j < |pairs| && pairs[j] == (SpecialMappings.Invert(pairs)[v], v)
        && forall j2 :: j < j2 < |pairs| ==> pairs[j2].1 != v;
      if j != i {
        assert i < j;
      }
    }
  }
}
