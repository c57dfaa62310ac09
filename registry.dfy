/**
 * The layout registry as a value: a Python dict from layout key to layout
 * record, kept as its list of items in insertion order (a dict never holds
 * a key twice, and `add_layout` refuses to insert one that is present).
 * Both `LayoutFunctions.layouts` (loaded from the JSON store) and
 * `KeyboardLayouts.layouts` (the built-in table) are values of this type.
 */
module Registry {
  import opened Results

  /** A grid: rows of cells, each cell a Python string (usually one character, possibly ''). */
  type Grid = seq<seq<string>>

  datatype Layout = Layout(name: string, lowercase: Grid, uppercase: Grid)

  datatype Layouts = Layouts(items: seq<(string, Layout)>)

  const Empty: Layouts := Layouts([])

  /** The dict invariant: no key occurs twice. */
  ghost predicate Valid(ls: Layouts)
  {
    forall i, j :: 0 <= i < j < |ls.items| ==> ls.items[i].0 != ls.items[j].0
  }

  predicate HasKey(ls: Layouts, key: string)
  {
    exists i :: 0 <= i < |ls.items| && ls.items[i].0 == key
  }

  /** `self.layouts.get(key)`. */
  function Lookup(items: seq<(string, Layout)>, key: string): (r: Option<Layout>)
    ensures r.None? <==> forall i :: 0 <= i < |items| ==> items[i].0 != key
    ensures r.Some? ==> (key, r.value) in items
  {
    if items == [] then None
    else if items[0].0 == key then Some(items[0].1)
    else Lookup(items[1..], key)
  }

  /** `get_layout`: the (lowercase, uppercase) pair, or ValueError when the key is unknown. */
  function GetLayout(ls: Layouts, key: string): (r: Result<(Grid, Grid)>)
    ensures r.Ok? <==> HasKey(ls, key)
    ensures r.Ok? ==> exists name :: (key, Layout(name, r.value.0, r.value.1)) in ls.items
    ensures r.Err? ==> r.error == LayoutNotFound(key)
  {
    match Lookup(ls.items, key)
    case Some(l) => Ok((l.lowercase, l.uppercase))
    case None => Err(LayoutNotFound(key))
  }

  /** `get_layout_name`: the stored name, with the same failure as `get_layout`. */
  function GetLayoutName(ls: Layouts, key: string): (r: Result<string>)
    ensures r.Ok? <==> HasKey(ls, key)
    ensures r.Ok? ==> exists lo, up :: (key, Layout(r.value, lo, up)) in ls.items
    ensures r.Err? ==> r.error == LayoutNotFound(key)
  {
    match Lookup(ls.items, key)
    case Some(l) => Ok(l.name)
    case None => Err(LayoutNotFound(key))
  }

  /** `list_layouts`: one (key, name) pair per stored layout, in insertion order. */
  function ListLayouts(ls: Layouts): seq<(string, string)>
  {
    seq(|ls.items|, i requires 0 <= i < |ls.items| => (ls.items[i].0, ls.items[i].1.name))
  }

  /** `key in dict(pairs)`: the key occurs as the first component of some pair. */
  predicate Listed(pairs: seq<(string, string)>, key: string)
  {
    exists i :: 0 <= i < |pairs| && pairs[i].0 == key
  }

  /** `add_layout`: ValueError for a present key, otherwise the record is inserted last. */
  function AddLayout(ls: Layouts, key: string, name: string, lowercase: Grid, uppercase: Grid): (r: Result<Layouts>)
  {
    if HasKey(ls, key) then Err(DuplicateLayout(key))
    else Ok(Layouts(ls.items + [(key, Layout(name, lowercase, uppercase))]))
  }

  /** The keys a directive may name are exactly the registered keys. */
  lemma ListedIffRegistered(ls: Layouts)
    ensures forall key :: Listed(ListLayouts(ls), key) <==> HasKey(ls, key)
  {
    var pairs := ListLayouts(ls);
    forall key ensures Listed(pairs, key) <==> HasKey(ls, key) {
      if HasKey(ls, key) {
        var i :| 0 <= i < |ls.items| && ls.items[i].0 == key;
        assert pairs[i].0 == key;
      }
    }
  }

  /** Registering an existing key fails and leaves the registry as it was. */
  lemma AddDuplicateRejected(ls: Layouts, key: string, name: string, lowercase: Grid, uppercase: Grid)
    requires HasKey(ls, key)
    ensures AddLayout(ls, key, name, lowercase, uppercase) == Err(DuplicateLayout(key))
  {
  }

  /**
   * Registering a new key succeeds, keeps the dict invariant, and the key
   * then yields exactly the stored grids and name.
   */
  lemma AddNewLayout(ls: Layouts, key: string, name: string, lowercase: Grid, uppercase: Grid)
    requires Valid(ls)
    requires !HasKey(ls, key)
    ensures AddLayout(ls, key, name, lowercase, uppercase).Ok?
    ensures var ls' := AddLayout(ls, key, name, lowercase, uppercase).value;
      && Valid(ls')
      && GetLayout(ls', key) == Ok((lowercase, uppercase))
      && GetLayoutName(ls', key) == Ok(name)
  {
    LookupAppend(ls.items, (key, Layout(name, lowercase, uppercase)), key);
  }

  /** Registering a new key changes what no other key yields. */
  lemma AddKeepsOthers(ls: Layouts, key: string, name: string, lowercase: Grid, uppercase: Grid, other: string)
    requires !HasKey(ls, key)
    requires other != key
    ensures var ls' := AddLayout(ls, key, name, lowercase, uppercase).value;
      && GetLayout(ls', other) == GetLayout(ls, other)
      && GetLayoutName(ls', other) == GetLayoutName(ls, other)
  {
    LookupAppend(ls.items, (key, Layout(name, lowercase, uppercase)), other);
  }

  /** Registering a new key appends its (key, name) pair to the listing. */
  lemma AddAppendsListing(ls: Layouts, key: string, name: string, lowercase: Grid, uppercase: Grid)
    requires !HasKey(ls, key)
    ensures ListLayouts(AddLayout(ls, key, name, lowercase, uppercase).value) == ListLayouts(ls) + [(key, name)]
  {
  }

  lemma {:induction false} LookupAppend(items: seq<(string, Layout)>, item: (string, Layout), key: string)
    requires forall i :: 0 <= i < |items| ==> items[i].0 != item.0
    ensures Lookup(items + [item], key) == if key == item.0 then Some(item.1) else Lookup(items, key)
  {
    if items != [] {
      assert (items + [item])[1..] == items[1..] + [item];
      LookupAppend(items[1..], item, key);
    }
  }
}
