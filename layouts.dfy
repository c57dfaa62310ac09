/**
 * The in-memory registry of `layouts.py`: the special-character table and
 * its derived inverse, the eight built-in layouts, and the class whose
 * class-level `layouts` dict `add_layout` extends.
 */
module BuiltinLayouts {
  import opened PyText
  import opened Results
  import Registry
  import SpecialMappings
  import TableBuilder
  import Engine
  import DistinctGrids

  type Grid = Registry.Grid

  /** The special-character table, items in the order of the literal. */
  const SpecialPairs: seq<(string, string)> := [
    (" ", "00x00"), ("\U{A}", "10x00"), ("\U{9}", "10x01"), ("\U{D}", "10x02"),
    ("\U{8}", "10x03"), ("\U{C}", "10x04"), ("\U{B}", "10x05"), ("\U{7}", "10x06"),
    ("\U{300}", "00x01"), ("\U{301}", "00x02"), ("\U{302}", "00x03"), ("\U{303}", "00x04"),
    ("\U{304}", "00x05"), ("\U{305}", "00x06"), ("\U{306}", "00x07"), ("\U{307}", "00x08"),
    ("\U{308}", "00x09"), ("\U{309}", "00x0A"), ("\U{30A}", "00x0B"), ("\U{30B}", "00x0C"),
    ("\U{30C}", "00x0D"), ("\U{30D}", "00x0E"), ("\U{30E}", "00x0F"), ("\U{310}", "00x10"),
    ("\U{311}", "00x11"), ("\U{312}", "00x12"), ("\U{327}", "00x13"), ("\U{328}", "00x14"),
    ("\U{331}", "00x15"), ("\U{332}", "00x16"), ("\U{333}", "00x17"), ("\U{339}", "00x18"),
    ("\U{33A}", "00x19"), ("\U{33B}", "00x1A"), ("\U{33C}", "00x1B"), ("\U{345}", "00x1C")
  ]

  // AZERTY
  const AYLower: Grid := [
    ["\U{B2}", "&", "\U{E9}", "\"", "\'", "(", "-", "\U{E8}", "_", "\U{E7}", "\U{E0}", ")", "="],
    ["a", "z", "e", "r", "t", "y", "u", "i", "o", "p", "^", "$", "\\"],
    ["q", "s", "d", "f", "g", "h", "j", "k", "l", "m", "\U{F9}", "*"],
    ["w", "x", "c", "v", "b", "n", ",", ";", ":", "!", " ", " "]
  ]
  const AYUpper: Grid := [
    ["\U{B3}", "1", "2", "3", "4", "5", "6", "7", "8", "9", "0", "\U{B0}", "+"],
    ["A", "Z", "E", "R", "T", "Y", "U", "I", "O", "P", "\U{A8}", "\U{A3}", "\U{B5}"],
    ["Q", "S", "D", "F", "G", "H", "J", "K", "L", "M", "%", "\U{A4}"],
    ["W", "X", "C", "V", "B", "N", "?", ".", "/", "\U{A7}", " ", " "]
  ]

  // Colemak
  const CKLower: Grid := [
    ["`", "1", "2", "3", "4", "5", "6", "7", "8", "9", "0", "-", "="],
    ["q", "w", "f", "p", "g", "j", "l", "u", "y", ";", "[", "]", "\\"],
    ["a", "r", "s", "t", "d", "h", "n", "e", "i", "o", "\'", " "],
    ["z", "x", "c", "v", "b", "k", "m", ",", ".", "/", " ", " "]
  ]
  const CKUpper: Grid := [
    ["~", "!", "@", "#", "$", "%", "^", "&", "*", "(", ")", "_", "+"],
    ["Q", "W", "F", "P", "G", "J", "L", "U", "Y", ":", "{", "}", "|"],
    ["A", "R", "S", "T", "D", "H", "N", "E", "I", "O", "\"", " "],
    ["Z", "X", "C", "V", "B", "K", "M", "<", ">", "?", " ", " "]
  ]

  // Dvorak
  const DKLower: Grid := [
    ["`", "1", "2", "3", "4", "5", "6", "7", "8", "9", "0", "[", "]"],
    ["\'", ",", ".", "p", "y", "f", "g", "c", "r", "l", "/", "=", "\\"],
    ["a", "o", "e", "u", "i", "d", "h", "t", "n", "s", "-", " "],
    [";", "q", "j", "k", "x", "b", "m", "w", "v", "z", " ", " "]
  ]
  const DKUpper: Grid := [
    ["~", "!", "@", "#", "$", "%", "^", "&", "*", "(", ")", "{", "}"],
    ["\"", "<", ">", "P", "Y", "F", "G", "C", "R", "L", "?", "+", "|"],
    ["A", "O", "E", "U", "I", "D", "H", "T", "N", "S", "_", " "],
    [":", "Q", "J", "K", "X", "B", "M", "W", "V", "Z", " ", " "]
  ]

  // HCESAR
  const HRLower: Grid := [
    ["\\", "1", "2", "3", "4", "5", "6", "7", "8", "9", "0", "\'", "="],
    ["c", "h", "e", "s", "a", "r", "u", "i", "d", "o", "p", "\U{B4}", "~"],
    ["~", "q", "j", "k", "x", "b", "m", "w", "v", "z", "\U{E7}", "^"],
    ["t", "n", "r", "l", "m", "g", "j", "v", "k", "f", ",", "."]
  ]
  const HRUpper: Grid := [
    ["|", "!", "\"", "#", "$", "%", "&", "/", "(", ")", "=", "?", ""],
    ["C", "H", "E", "S", "A", "R", "U", "I", "D", "O", "P", "`", "^"],
    ["^", "Q", "J", "K", "X", "B", "M", "W", "V", "Z", "\U{C7}", ""],
    ["T", "N", "R", "L", "M", "G", "J", "V", "K", "F", ";", ":"]
  ]

  // JCUKEN
  const JNLower: Grid := [
    ["\U{451}", "1", "2", "3", "4", "5", "6", "7", "8", "9", "0", "-", "="],
    ["\U{439}", "\U{446}", "\U{443}", "\U{43A}", "\U{435}", "\U{43D}", "\U{433}", "\U{448}", "\U{449}", "\U{437}", "\U{445}", "\U{44A}", "\\"],
    ["\U{444}", "\U{44B}", "\U{432}", "\U{430}", "\U{43F}", "\U{440}", "\U{43E}", "\U{43B}", "\U{434}", "\U{436}", "\U{44D}", " "],
    ["\U{44F}", "\U{447}", "\U{441}", "\U{43C}", "\U{438}", "\U{442}", "\U{44C}", "\U{431}", "\U{44E}", ".", " ", " "]
  ]
  const JNUpper: Grid := [
    ["\U{401}", "!", "\"", "\U{2116}", ";", "%", ":", "?", "*", "(", ")", "_", "+"],
    ["\U{419}", "\U{426}", "\U{423}", "\U{41A}", "\U{415}", "\U{41D}", "\U{413}", "\U{428}", "\U{429}", "\U{417}", "\U{425}", "\U{42A}", "/"],
    ["\U{424}", "\U{42B}", "\U{412}", "\U{410}", "\U{41F}", "\U{420}", "\U{41E}", "\U{41B}", "\U{414}", "\U{416}", "\U{42D}", " "],
    ["\U{42F}", "\U{427}", "\U{421}", "\U{41C}", "\U{418}", "\U{422}", "\U{42C}", "\U{411}", "\U{42E}", ",", " ", " "]
  ]

  // QWERTY
  const QYLower: Grid := [
    ["`", "1", "2", "3", "4", "5", "6", "7", "8", "9", "0", "-", "="],
    ["q", "w", "e", "r", "t", "y", "u", "i", "o", "p", "[", "]", "\\"],
    ["a", "s", "d", "f", "g", "h", "j", "k", "l", ";", "\'", " "],
    ["z", "x", "c", "v", "b", "n", "m", ",", ".", "/", " ", " "]
  ]
  const QYUpper: Grid := [
    ["~", "!", "@", "#", "$", "%", "^", "&", "*", "(", ")", "_", "+"],
    ["Q", "W", "E", "R", "T", "Y", "U", "I", "O", "P", "{", "}", "|"],
    ["A", "S", "D", "F", "G", "H", "J", "K", "L", ":", "\"", " "],
    ["Z", "X", "C", "V", "B", "N", "M", "<", ">", "?", " ", " "]
  ]

  // QWERTZ
  const QZLower: Grid := [
    ["^", "1", "2", "3", "4", "5", "6", "7", "8", "9", "0", "\U{DF}", "="],
    ["q", "w", "e", "r", "t", "z", "u", "i", "o", "p", "\U{FC}", "+", "\\"],
    ["a", "s", "d", "f", "g", "h", "j", "k", "l", "\U{F6}", "\U{E4}", "#"],
    ["y", "x", "c", "v", "b", "n", "m", ",", ".", "-", " ", " "]
  ]
  const QZUpper: Grid := [
    ["\U{B0}", "!", "\"", "\U{A7}", "$", "%", "&", "/", "(", ")", "=", "?", "`"],
    ["Q", "W", "E", "R", "T", "Z", "U", "I", "O", "P", "\U{DC}", "*", "|"],
    ["A", "S", "D", "F", "G", "H", "J", "K", "L", "\U{D6}", "\U{C4}", "\'"],
    ["Y", "X", "C", "V", "B", "N", "M", ";", ":", "_", " ", " "]
  ]

  // Workman
  const WNLower: Grid := [
    ["`", "1", "2", "3", "4", "5", "6", "7", "8", "9", "0", "-", "="],
    ["q", "d", "r", "w", "b", "j", "f", "u", "p", ";", "[", "]", "\\"],
    ["a", "s", "h", "t", "g", "y", "n", "e", "o", "i", "\'", " "],
    ["z", "x", "m", "c", "v", "k", "l", ",", ".", "/", " ", " "]
  ]
  const WNUpper: Grid := [
    ["~", "!", "@", "#", "$", "%", "^", "&", "*", "(", ")", "_", "+"],
    ["Q", "D", "R", "W", "B", "J", "F", "U", "P", ":", "{", "}", "|"],
    ["A", "S", "H", "T", "G", "Y", "N", "E", "O", "I", "\"", " "],
    ["Z", "X", "M", "C", "V", "K", "L", "<", ">", "?", " ", " "]
  ]

  /** The built-in registry, in the order of the dict literal. */
  const Builtin: Registry.Layouts := Registry.Layouts([
    ("ay", Registry.Layout("AZERTY", AYLower, AYUpper)),
    ("ck", Registry.Layout("Colemak", CKLower, CKUpper)),
    ("dk", Registry.Layout("Dvorak", DKLower, DKUpper)),
    ("hr", Registry.Layout("HCESAR", HRLower, HRUpper)),
    ("jn", Registry.Layout("JCUKEN", JNLower, JNUpper)),
    ("qy", Registry.Layout("QWERTY", QYLower, QYUpper)),
    ("qz", Registry.Layout("QWERTZ", QZLower, QZUpper)),
    ("wn", Registry.Layout("Workman", WNLower, WNUpper))
  ])

  /** `encode_special_mappings`. */
  const EncodeSpecial: map<string, string> := SpecialMappings.MapOf(SpecialPairs)

  /** `decode_special_mappings`, the inverse built by the dict comprehension. */
  const DecodeSpecial: map<string, string> := SpecialMappings.Invert(SpecialPairs)

  // ----- the special table -----

  /**
   * Every special character is one character long, and every special code is
   * five characters, starts with a digit, has '0' second and holds no
   * whitespace.
   */
  lemma SpecialShape()
    ensures forall i :: 0 <= i < |SpecialPairs| ==>
      && |SpecialPairs[i].0| == 1
      && var v := SpecialPairs[i].1; |v| == 5 && IsDigit(v[0]) && v[1] == '0' && NoSpace(v)
  {
  }

  function KeyRank(p: (string, string)): int
  {
    if p.0 == [] then -1 else p.0[0] as int
  }

  function CodeRank(p: (string, string)): int
  {
    var v := p.1;
    if |v| < 5 then -1 else (v[0] as int) * 0x10000 + (v[3] as int) * 0x100 + v[4] as int
  }

  /** A rank that grows from each item to the next grows from every item to every later one. */
  lemma {:induction false} Increasing(pairs: seq<(string, string)>, rank: ((string, string)) -> int, lo: nat, hi: nat)
    requires lo <= hi <= |pairs|
    requires forall i :: lo <= i && i + 1 < hi ==> rank(pairs[i]) < rank(pairs[i + 1])
    ensures forall i, j :: lo <= i < j < hi ==> rank(pairs[i]) < rank(pairs[j])
    decreases hi - lo
  {
    if lo + 1 < hi {
      Increasing(pairs, rank, lo + 1, hi);
      assert forall j :: lo + 1 < j < hi ==> rank(pairs[lo]) < rank(pairs[lo + 1]) < rank(pairs[j]);
    }
  }

  // The facts about the literal, each small enough to check on its own.
  lemma AccentKeysAscend()
    ensures forall i :: 8 <= i && i + 1 < |SpecialPairs| ==> KeyRank(SpecialPairs[i]) < KeyRank(SpecialPairs[i + 1])
  {
  }

  lemma ControlKeysBelowAccents()
    ensures forall i :: 0 <= i < 8 ==> KeyRank(SpecialPairs[i]) < 0x300
    ensures forall i :: 8 <= i < |SpecialPairs| ==> KeyRank(SpecialPairs[i]) >= 0x300
  {
  }

  lemma ControlKeysDistinct()
    ensures forall i, j :: 0 <= i < j < 8 ==> KeyRank(SpecialPairs[i]) != KeyRank(SpecialPairs[j])
  {
  }

  lemma ControlCodesAscend()
    ensures forall i :: 0 <= i && i + 1 < 8 ==> CodeRank(SpecialPairs[i]) < CodeRank(SpecialPairs[i + 1])
  {
  }

  lemma AccentCodesAscend()
    ensures forall i :: 8 <= i && i + 1 < |SpecialPairs| ==> CodeRank(SpecialPairs[i]) < CodeRank(SpecialPairs[i + 1])
  {
  }

  lemma AccentCodesBetween()
    ensures forall i :: 8 <= i < |SpecialPairs| ==> CodeRank(SpecialPairs[0]) < CodeRank(SpecialPairs[i]) < CodeRank(SpecialPairs[1])
  {
  }

  /** No character is listed twice in the special table. */
  lemma SpecialKeysDistinct()
    ensures SpecialMappings.DistinctKeys(SpecialPairs)
  {
    AccentKeysAscend();
    ControlKeysBelowAccents();
    ControlKeysDistinct();
    Increasing(SpecialPairs, KeyRank, 8, |SpecialPairs|);
    forall i, j | 0 <= i < j < |SpecialPairs| ensures SpecialPairs[i].0 != SpecialPairs[j].0 {
      assert KeyRank(SpecialPairs[i]) != KeyRank(SpecialPairs[j]);
    }
  }

  /** No two special characters share a code. */
  lemma SpecialCodesDistinct()
    ensures SpecialMappings.DistinctValues(SpecialPairs)
  {
    ControlCodesAscend();
    AccentCodesAscend();
    AccentCodesBetween();
    Increasing(SpecialPairs, CodeRank, 0, 8);
    Increasing(SpecialPairs, CodeRank, 8, |SpecialPairs|);
    forall i, j | 0 <= i < j < |SpecialPairs| ensures SpecialPairs[i].1 != SpecialPairs[j].1 {
      assert CodeRank(SpecialPairs[i]) != CodeRank(SpecialPairs[j]);
    }
  }

  /**
   * The built-in decode table is an exact two-sided inverse of the encode
   * table, and every special code is a five-character digit-led code with
   * '0' second (so it is never a builder code, whose second character is a
   * row number 1-9).
   */
  lemma SpecialInverse()
    ensures forall c :: c in EncodeSpecial ==> EncodeSpecial[c] in DecodeSpecial && DecodeSpecial[EncodeSpecial[c]] == c
    ensures forall v :: v in DecodeSpecial ==> DecodeSpecial[v] in EncodeSpecial && EncodeSpecial[DecodeSpecial[v]] == v
    ensures forall c :: c in EncodeSpecial ==>
      var v := EncodeSpecial[c]; |c| == 1 && |v| == 5 && IsDigit(v[0]) && v[1] == '0' && NoSpace(v) && !TableBuilder.IsCode(v)
  {
    SpecialKeysDistinct();
    SpecialCodesDistinct();
    SpecialMappings.ExactInverse(SpecialPairs);
    SpecialShape();
    forall c | c in EncodeSpecial
      ensures var v := EncodeSpecial[c]; |c| == 1 && |v| == 5 && IsDigit(v[0]) && v[1] == '0' && NoSpace(v)
    {
      SpecialMappings.MapOfLastWins(SpecialPairs, c);
    }
  }

  // ----- the built-in layouts -----

  /** `list_layouts` on the built-in table: the eight layouts in the order of the literal. */
  lemma BuiltinListing()
    ensures Registry.ListLayouts(Builtin) == [("ay", "AZERTY"), ("ck", "Colemak"), ("dk", "Dvorak"), ("hr", "HCESAR"),
      ("jn", "JCUKEN"), ("qy", "QWERTY"), ("qz", "QWERTZ"), ("wn", "Workman")]
    ensures Registry.Valid(Builtin)
  {
  }

  /** Every built-in grid has at most 4 rows of at most 13 cells. */
  lemma BuiltinBounds()
    ensures forall i :: 0 <= i < |Builtin.items| ==>
      var l := Builtin.items[i].1;
      && |l.lowercase| <= 4 && |l.uppercase| <= 4
      && (forall r :: 0 <= r < |l.lowercase| ==> |l.lowercase[r]| <= 13)
      && (forall r :: 0 <= r < |l.uppercase| ==> |l.uppercase[r]| <= 13)
  {
  }

  /** Hence every code a built-in layout produces is five characters long: one row digit, two column digits. */
  lemma BuiltinCodesShort(i: nat, prefix: char, upper: bool, r: nat, c: nat)
    requires i < |Builtin.items|
    requires var l := Builtin.items[i].1; var g := if upper then l.uppercase else l.lowercase;
      r < |g| && c < |g[r]|
    ensures |TableBuilder.Code(prefix, r, c)| == 5
  {
    BuiltinBounds();
    TableBuilder.CodeShape(prefix, r, c);
  }

  /** Where 'r' sits in HCESAR: its last lowercase cell is row 4 column 3, it also sits at row 2 column 6. */
  lemma HcesarCellsOfR()
    ensures TableBuilder.LastRow(HRLower, "r", |HRLower|) == 3
    ensures TableBuilder.LastIndex(HRLower[3], "r", |HRLower[3]|) == 2
    ensures HRLower[1][5] == "r" && !IsBlank("r")
  {
    assert |HRLower| == 4 && |HRLower[3]| == 12;
    assert TableBuilder.LastIndex(HRLower[3], "r", 12) == 2;
    assert !IsSpace("r"[0]);
  }

  /** The HCESAR uppercase grid has no 'r' cell. */
  lemma HcesarUpperHasNoR()
    ensures !TableBuilder.Occurs(HRUpper, "r")
  {
  }

  lemma HcesarCodesOfR()
    ensures TableBuilder.Code('0', 3, 2) == "04x03" && TableBuilder.Code('0', 1, 5) == "02x06"
  {
  }

  /**
   * In HCESAR the lowercase 'r' has two cells (row 2 column 6 and row 4
   * column 3): the encode table keeps only the later code, 04x03, while both
   * codes decode to 'r'.
   */
  lemma HcesarRepeats(lowercase: Grid, uppercase: Grid)
    requires lowercase == HRLower && uppercase == HRUpper
    ensures var t := TableBuilder.AddLayout(TableBuilder.NoTables, lowercase, uppercase);
      && "r" in t.enc && t.enc["r"] == "04x03"
      && "02x06" in t.dec && t.dec["02x06"] == "r"
      && "04x03" in t.dec && t.dec["04x03"] == "r"
  {
    var mid := TableBuilder.AddGrid(TableBuilder.NoTables, '0', lowercase);
    HcesarCellsOfR();
    HcesarUpperHasNoR();
    HcesarCodesOfR();
    TableBuilder.LayoutRoundTrip(TableBuilder.NoTables, lowercase, uppercase, "r");
    TableBuilder.GridDecAt(TableBuilder.NoTables, '0', lowercase, 1, 5);
    TableBuilder.GridDecOtherLayer(mid, '1', uppercase, "02x06");
  }

  /**
   * The built-in special table fits beside any builder tables: its codes
   * are whitespace-free, digit-led, never builder codes, and decode back.
   */
  lemma BuiltinSpecialCoherent()
    ensures Engine.SpecialCoherent(EncodeSpecial, DecodeSpecial)
  {
    SpecialInverse();
  }

  /** No built-in key starts with a digit, so no code token is read as a directive. */
  lemma BuiltinKeysNotCodes()
    ensures Engine.KeysNotCodes(Builtin)
  {
  }

  // ----- QWERTY has no repeated key -----

  // Each QWERTY row, cell by cell, as the string of its one-character cells.
  const QYLowerKeys: seq<string> := ["`1234567890-=", "qwertyuiop[]\\", "asdfghjkl;' ", "zxcvbnm,./  "]
  const QYUpperKeys: seq<string> := ["~!@#$%^&*()_+", "QWERTYUIOP{}|", "ASDFGHJKL:\" ", "ZXCVBNM<>?  "]

  // One fact per row and per pair of rows of the two QWERTY grids.
  lemma QwertyLowerRow0() ensures DistinctGrids.RowDistinct(QYLower[0]) {
    DistinctGrids.SingleCharsDistinct(QYLower[0], QYLowerKeys[0]);
  }
  lemma QwertyLowerRow1() ensures DistinctGrids.RowDistinct(QYLower[1]) {
    DistinctGrids.SingleCharsDistinct(QYLower[1], QYLowerKeys[1]);
  }
  lemma QwertyLowerRow2() ensures DistinctGrids.RowDistinct(QYLower[2]) {
    DistinctGrids.SingleCharsDistinct(QYLower[2], QYLowerKeys[2]);
  }
  lemma QwertyLowerRow3() ensures DistinctGrids.RowDistinct(QYLower[3]) {
    DistinctGrids.SingleCharsDistinct(QYLower[3], QYLowerKeys[3]);
  }
  lemma QwertyUpperRow0() ensures DistinctGrids.RowDistinct(QYUpper[0]) {
    DistinctGrids.SingleCharsDistinct(QYUpper[0], QYUpperKeys[0]);
  }
  lemma QwertyUpperRow1() ensures DistinctGrids.RowDistinct(QYUpper[1]) {
    DistinctGrids.SingleCharsDistinct(QYUpper[1], QYUpperKeys[1]);
  }
  lemma QwertyUpperRow2() ensures DistinctGrids.RowDistinct(QYUpper[2]) {
    DistinctGrids.SingleCharsDistinct(QYUpper[2], QYUpperKeys[2]);
  }
  lemma QwertyUpperRow3() ensures DistinctGrids.RowDistinct(QYUpper[3]) {
    DistinctGrids.SingleCharsDistinct(QYUpper[3], QYUpperKeys[3]);
  }
  lemma QwertyLowerRows01() ensures DistinctGrids.RowsApart(QYLower[0], QYLower[1]) {
    DistinctGrids.SingleCharsApart(QYLower[0], QYLower[1], QYLowerKeys[0], QYLowerKeys[1]);
  }
  lemma QwertyLowerRows02() ensures DistinctGrids.RowsApart(QYLower[0], QYLower[2]) {
    DistinctGrids.SingleCharsApart(QYLower[0], QYLower[2], QYLowerKeys[0], QYLowerKeys[2]);
  }
  lemma QwertyLowerRows03() ensures DistinctGrids.RowsApart(QYLower[0], QYLower[3]) {
    DistinctGrids.SingleCharsApart(QYLower[0], QYLower[3], QYLowerKeys[0], QYLowerKeys[3]);
  }
  lemma QwertyLowerRows12() ensures DistinctGrids.RowsApart(QYLower[1], QYLower[2]) {
    DistinctGrids.SingleCharsApart(QYLower[1], QYLower[2], QYLowerKeys[1], QYLowerKeys[2]);
  }
  lemma QwertyLowerRows13() ensures DistinctGrids.RowsApart(QYLower[1], QYLower[3]) {
    DistinctGrids.SingleCharsApart(QYLower[1], QYLower[3], QYLowerKeys[1], QYLowerKeys[3]);
  }
  lemma QwertyLowerRows23() ensures DistinctGrids.RowsApart(QYLower[2], QYLower[3]) {
    DistinctGrids.SingleCharsApart(QYLower[2], QYLower[3], QYLowerKeys[2], QYLowerKeys[3]);
  }
  lemma QwertyUpperRows01() ensures DistinctGrids.RowsApart(QYUpper[0], QYUpper[1]) {
    DistinctGrids.SingleCharsApart(QYUpper[0], QYUpper[1], QYUpperKeys[0], QYUpperKeys[1]);
  }
  lemma QwertyUpperRows02() ensures DistinctGrids.RowsApart(QYUpper[0], QYUpper[2]) {
    DistinctGrids.SingleCharsApart(QYUpper[0], QYUpper[2], QYUpperKeys[0], QYUpperKeys[2]);
  }
  lemma QwertyUpperRows03() ensures DistinctGrids.RowsApart(QYUpper[0], QYUpper[3]) {
    DistinctGrids.SingleCharsApart(QYUpper[0], QYUpper[3], QYUpperKeys[0], QYUpperKeys[3]);
  }
  lemma QwertyUpperRows12() ensures DistinctGrids.RowsApart(QYUpper[1], QYUpper[2]) {
    DistinctGrids.SingleCharsApart(QYUpper[1], QYUpper[2], QYUpperKeys[1], QYUpperKeys[2]);
  }
  lemma QwertyUpperRows13() ensures DistinctGrids.RowsApart(QYUpper[1], QYUpper[3]) {
    DistinctGrids.SingleCharsApart(QYUpper[1], QYUpper[3], QYUpperKeys[1], QYUpperKeys[3]);
  }
  lemma QwertyUpperRows23() ensures DistinctGrids.RowsApart(QYUpper[2], QYUpper[3]) {
    DistinctGrids.SingleCharsApart(QYUpper[2], QYUpper[3], QYUpperKeys[2], QYUpperKeys[3]);
  }
  lemma QwertyAcross00() ensures DistinctGrids.RowsApart(QYLower[0], QYUpper[0]) {
    DistinctGrids.SingleCharsApart(QYLower[0], QYUpper[0], QYLowerKeys[0], QYUpperKeys[0]);
  }
  lemma QwertyAcross01() ensures DistinctGrids.RowsApart(QYLower[0], QYUpper[1]) {
    DistinctGrids.SingleCharsApart(QYLower[0], QYUpper[1], QYLowerKeys[0], QYUpperKeys[1]);
  }
  lemma QwertyAcross02() ensures DistinctGrids.RowsApart(QYLower[0], QYUpper[2]) {
    DistinctGrids.SingleCharsApart(QYLower[0], QYUpper[2], QYLowerKeys[0], QYUpperKeys[2]);
  }
  lemma QwertyAcross03() ensures DistinctGrids.RowsApart(QYLower[0], QYUpper[3]) {
    DistinctGrids.SingleCharsApart(QYLower[0], QYUpper[3], QYLowerKeys[0], QYUpperKeys[3]);
  }
  lemma QwertyAcross10() ensures DistinctGrids.RowsApart(QYLower[1], QYUpper[0]) {
    DistinctGrids.SingleCharsApart(QYLower[1], QYUpper[0], QYLowerKeys[1], QYUpperKeys[0]);
  }
  lemma QwertyAcross11() ensures DistinctGrids.RowsApart(QYLower[1], QYUpper[1]) {
    DistinctGrids.SingleCharsApart(QYLower[1], QYUpper[1], QYLowerKeys[1], QYUpperKeys[1]);
  }
  lemma QwertyAcross12() ensures DistinctGrids.RowsApart(QYLower[1], QYUpper[2]) {
    DistinctGrids.SingleCharsApart(QYLower[1], QYUpper[2], QYLowerKeys[1], QYUpperKeys[2]);
  }
  lemma QwertyAcross13() ensures DistinctGrids.RowsApart(QYLower[1], QYUpper[3]) {
    DistinctGrids.SingleCharsApart(QYLower[1], QYUpper[3], QYLowerKeys[1], QYUpperKeys[3]);
  }
  lemma QwertyAcross20() ensures DistinctGrids.RowsApart(QYLower[2], QYUpper[0]) {
    DistinctGrids.SingleCharsApart(QYLower[2], QYUpper[0], QYLowerKeys[2], QYUpperKeys[0]);
  }
  lemma QwertyAcross21() ensures DistinctGrids.RowsApart(QYLower[2], QYUpper[1]) {
    DistinctGrids.SingleCharsApart(QYLower[2], QYUpper[1], QYLowerKeys[2], QYUpperKeys[1]);
  }
  lemma QwertyAcross22() ensures DistinctGrids.RowsApart(QYLower[2], QYUpper[2]) {
    DistinctGrids.SingleCharsApart(QYLower[2], QYUpper[2], QYLowerKeys[2], QYUpperKeys[2]);
  }
  lemma QwertyAcross23() ensures DistinctGrids.RowsApart(QYLower[2], QYUpper[3]) {
    DistinctGrids.SingleCharsApart(QYLower[2], QYUpper[3], QYLowerKeys[2], QYUpperKeys[3]);
  }
  lemma QwertyAcross30() ensures DistinctGrids.RowsApart(QYLower[3], QYUpper[0]) {
    DistinctGrids.SingleCharsApart(QYLower[3], QYUpper[0], QYLowerKeys[3], QYUpperKeys[0]);
  }
  lemma QwertyAcross31() ensures DistinctGrids.RowsApart(QYLower[3], QYUpper[1]) {
    DistinctGrids.SingleCharsApart(QYLower[3], QYUpper[1], QYLowerKeys[3], QYUpperKeys[1]);
  }
  lemma QwertyAcross32() ensures DistinctGrids.RowsApart(QYLower[3], QYUpper[2]) {
    DistinctGrids.SingleCharsApart(QYLower[3], QYUpper[2], QYLowerKeys[3], QYUpperKeys[2]);
  }
  lemma QwertyAcross33() ensures DistinctGrids.RowsApart(QYLower[3], QYUpper[3]) {
    DistinctGrids.SingleCharsApart(QYLower[3], QYUpper[3], QYLowerKeys[3], QYUpperKeys[3]);
  }

  /** No non-blank QWERTY key repeats within either grid or across the two. */
  lemma QwertyNoRepeats(lowercase: Grid, uppercase: Grid)
    requires lowercase == QYLower && uppercase == QYUpper
    ensures DistinctGrids.Unique(lowercase) && DistinctGrids.Unique(uppercase)
    ensures DistinctGrids.Apart(lowercase, uppercase)
  {
    QwertyLowerRow0();
    QwertyLowerRow1();
    QwertyLowerRow2();
    QwertyLowerRow3();
    QwertyLowerRows01();
    QwertyLowerRows02();
    QwertyLowerRows03();
    QwertyLowerRows12();
    QwertyLowerRows13();
    QwertyLowerRows23();
    DistinctGrids.UniqueFromRows(lowercase);
    QwertyUpperRow0();
    QwertyUpperRow1();
    QwertyUpperRow2();
    QwertyUpperRow3();
    QwertyUpperRows01();
    QwertyUpperRows02();
    QwertyUpperRows03();
    QwertyUpperRows12();
    QwertyUpperRows13();
    QwertyUpperRows23();
    DistinctGrids.UniqueFromRows(uppercase);
    QwertyAcross00();
    QwertyAcross01();
    QwertyAcross02();
    QwertyAcross03();
    QwertyAcross10();
    QwertyAcross11();
    QwertyAcross12();
    QwertyAcross13();
    QwertyAcross20();
    QwertyAcross21();
    QwertyAcross22();
    QwertyAcross23();
    QwertyAcross30();
    QwertyAcross31();
    QwertyAcross32();
    QwertyAcross33();
    DistinctGrids.ApartFromRows(lowercase, uppercase);
  }

  /**
   * QWERTY's tables, built from nothing, are exact inverses of each other,
   * so the merged encode map and the decode map have the same size.
   */
  lemma QwertyBijective(lowercase: Grid, uppercase: Grid)
    requires lowercase == QYLower && uppercase == QYUpper
    ensures var t := TableBuilder.AddLayout(TableBuilder.NoTables, lowercase, uppercase);
      && (forall k :: k in t.dec ==> t.dec[k] in t.enc && t.enc[t.dec[k]] == k)
      && |t.enc| == |t.dec|
  {
    QwertyNoRepeats(lowercase, uppercase);
    DistinctGrids.DistinctLayoutBijective(lowercase, uppercase);
  }

  // ----- the class -----

  /** `get_special_mappings`: the built-in pair of tables, each the exact inverse of the other. */
  function GetSpecialMappings(): (r: (map<string, string>, map<string, string>))
    ensures forall c :: c in r.0 ==> r.0[c] in r.1 && r.1[r.0[c]] == c
    ensures forall v :: v in r.1 ==> r.1[v] in r.0 && r.0[r.1[v]] == v
  {
    SpecialInverse();
    (EncodeSpecial, DecodeSpecial)
  }

  /**
   * `KeyboardLayouts`: its class attribute `layouts` starts as the built-in
   * table and only `add_layout` changes it. The source's methods are static
   * and every caller shares that one attribute; here one object stands for
   * the class, so all callers are to share one instance.
   */
  class KeyboardLayouts {
    var layouts: Registry.Layouts

    constructor()
      ensures layouts == Builtin
    {
      layouts := Builtin;
    }

    /** `get_layout`: the stored grids, or ValueError for an unknown key. */
    function GetLayout(key: string): (r: Result<(Grid, Grid)>)
      reads this
      ensures r.Ok? <==> Registry.HasKey(layouts, key)
      ensures r.Ok? ==> exists name :: (key, Registry.Layout(name, r.value.0, r.value.1)) in layouts.items
      ensures r.Err? ==> r.error == LayoutNotFound(key)
    {
      Registry.GetLayout(layouts, key)
    }

    /** `get_layout_name`: the stored name, or ValueError for an unknown key. */
    function GetLayoutName(key: string): (r: Result<string>)
      reads this
      ensures r.Ok? <==> Registry.HasKey(layouts, key)
      ensures r.Ok? ==> exists lo, up :: (key, Registry.Layout(r.value, lo, up)) in layouts.items
      ensures r.Err? ==> r.error == LayoutNotFound(key)
    {
      Registry.GetLayoutName(layouts, key)
    }

    /** `list_layouts`: one pair per stored layout, and the listed keys are exactly the stored ones. */
    function ListLayouts(): (r: seq<(string, string)>)
      reads this
      ensures |r| == |layouts.items|
      ensures forall key :: Registry.Listed(r, key) <==> Registry.HasKey(layouts, key)
    {
      Registry.ListedIffRegistered(layouts);
      Registry.ListLayouts(layouts)
    }

    /** `add_layout`: ValueError for a present key; otherwise the record is stored, in memory only. */
    method AddLayout(key: string, name: string, lowercase: Grid, uppercase: Grid) returns (r: Result<()>)
      modifies this
      ensures match Registry.AddLayout(old(layouts), key, name, lowercase, uppercase)
        case Ok(ls) => r == Ok(()) && layouts == ls
        case Err(e) => r == Err(e) && layouts == old(layouts)
    {
      match Registry.AddLayout(layouts, key, name, lowercase, uppercase)
      case Ok(ls) =>
        layouts := ls;
        r := Ok(());
      case Err(e) =>
        r := Err(e);
    }
  }

}
