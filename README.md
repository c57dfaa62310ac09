# Keyboard-layout codec

A model of the encoder/decoder behind Keyboard-Encoding. Each character of a
text is replaced by the position of its key on a keyboard layout:
`<layer><row>x<col>`. The layer is `0` for the lowercase grid and `1` for
the uppercase grid. The row is one digit counted from 1. The column is two
digits counted from 1.

Characters that have no key come from a fixed special table. These are
whitespace, control characters and combining accents, and their codes look
like `00x..`/`10x..`. Unknown input becomes U+FFFD. A text may switch
layouts with a `~key~` directive, and decoding turns a bare layout-key
token back into `~key~`.

The model follows the repository's variants, one module per concern:

| module | file | what it holds |
|---|---|---|
| `PyText` | pytext.dfy | the Python string behaviour the codec relies on: `isspace`/`strip`, `str(n)` and `{n:02}`, `' '.join`, `split()`, `find`, and slicing with a negative stop |
| `Results` | results.dfy | ValueError and the TypeError of `join` on `None`, as values; `Option` for `dict.get` |
| `Registry` | registry.dfy | a layout dict as an insertion-ordered list of items; `get_layout`, `get_layout_name`, `list_layouts`, `add_layout` |
| `SpecialMappings` | special.dfy | a dict built from items, and the inverse `{v: k ...}`, both with last-item-wins |
| `LayoutStore` | layout_functions.dfy | the JSON-backed `LayoutFunctions` class; the file contents are parameters |
| `BuiltinLayouts` | layouts.dfy | `KeyboardLayouts`: the special table, the eight built-in layouts, and facts about them |
| `TableBuilder` | builder.dfy | the code format, and the nested loops that write a grid into the tables (as folds and as a loop method) |
| `DistinctGrids` | distinct.dfy | for layouts with no repeated character, the tables are a bijection |
| `Engine` | engine.dfy | the state `EncodeDecode` keeps, and `initialize_layout_dictionaries` |
| `ClassCodec` | encode_decode.dfy | the class version of `EncodeDecode` (directive scan, round trip) |
| `FunctionalCodec` | code.dfy | the functional codec: per-grid builder, merge, encode/decode without directives |
| `LegacyCodec` | keyboard_encoding.dfy | the older `EncodeDecode`: the manual `while` index, divergence, and the `None` crash |

Unicode NFD normalization is a parameter `nfd: string -> string` of the
encode methods. The class versions check directive keys against a
`LayoutFunctions` instance they create themselves, but take their grids from
the registry they were given. The model keeps these two registries apart
(`layoutFunctions` and `layouts`). Proofs that need them to agree say so in
their preconditions (`Registry.HasKey(keys, …) && Registry.HasKey(reg, …)`).

The `LayoutFunctions` class in keyboard_encoding.py (lines 110-217) has
the same members with the same behaviour as the one in layout_functions.py
(only its `load_layouts` and `get_special_mappings` are instance methods
instead of static ones). It is modelled once, as `LayoutStore.LayoutFunctions`.

`KeyboardLayouts` in layouts.py has only static methods over one class
attribute `layouts` that every caller shares. One object of
`BuiltinLayouts.KeyboardLayouts` stands for that class attribute, and
callers are to share that object.

The JSON files are read by `json.load`, which gives a dict, so the stored
layout records and the stored special items never repeat a key. The
constructors require this of their stored contents.

## Model

| member | source | states |
|---|---|---|
| PyText.SplitJoin | encode_decode.py:72-85 | splitting the space-joined tokens gives the tokens back, when each is non-empty and whitespace-free; this connects the encoder's output to the decoder's input |
| PyText.SplitBlank | code.py:48 | a blank string splits into no pieces |
| PyText.DecimalShape | encode_decode.py:39 | `str(n)` is a non-empty run of digits with no leading zero, and has one digit exactly when n < 10 |
| PyText.PaddedDecimalInjective | encode_decode.py:39 | two zero-padded decimals of the same width are equal only for equal numbers |
| PyText.Find | encode_decode.py:59 | `find` gives -1 when the character is absent from `start` on; otherwise it gives the first index at or after `start` that holds it |
| Registry.Lookup | layout_functions.py:41 | `dict.get`: None exactly when no item has the key; otherwise an item of the dict |
| Registry.GetLayout | layout_functions.py:41-44 | succeeds exactly for a stored key, returning that record's two grids; otherwise ValueError naming the key |
| Registry.GetLayoutName | layout_functions.py:56-59 | succeeds exactly for a stored key, returning that record's name; otherwise ValueError naming the key |
| Registry.ListedIffRegistered | layout_functions.py:68 | a key is in `dict(list_layouts())` exactly when it is a stored key |
| Registry.AddDuplicateRejected | layout_functions.py:80-81 | adding a present key gives ValueError, and nothing is stored |
| Registry.AddNewLayout | layout_functions.py:83-87 | adding a new key succeeds and keeps keys distinct; the key then yields exactly the given grids and name |
| Registry.AddKeepsOthers | layout_functions.py:83-87 | adding a new key changes neither the grids nor the name of any other key |
| Registry.AddAppendsListing | layout_functions.py:68-87 | adding a new key appends (key, name) to the end of the listing |
| LayoutStore.LayoutFunctions.constructor | layout_functions.py:6-29 | the registry is the stored dict (no key twice), or empty when the file cannot be read |
| LayoutStore.LayoutFunctions.GetLayout | layout_functions.py:31-44 | the stored grids for a stored key, else ValueError |
| LayoutStore.LayoutFunctions.GetLayoutName | layout_functions.py:46-59 | the stored name for a stored key, else ValueError |
| LayoutStore.LayoutFunctions.ListLayouts | layout_functions.py:61-68 | one pair per stored layout; the listed keys are exactly the stored keys |
| LayoutStore.LayoutFunctions.AddLayout | layout_functions.py:70-87 | a present key gives ValueError and leaves the registry unchanged; a new one becomes `Registry.AddLayout`'s result |
| LayoutStore.GetSpecialMappings | layout_functions.py:92-114 | an unreadable file gives two empty tables. Otherwise the encode table holds exactly the stored characters, each with its stored code. The decode table holds exactly the stored codes, each decoding to the character of the last item with that code, which encodes back to it |
| SpecialMappings.MapOfLastWins | layout_functions.py:102 | a key is in the dict exactly when some item has it, and it holds the value of the last such item |
| SpecialMappings.InvertLastWins | layout_functions.py:104 | a code is in the inverse exactly when some item has it, and it maps to the key of the last such item |
| SpecialMappings.ExactInverse | layouts.py:42 | when neither keys nor codes repeat, the inverse is an exact two-sided inverse of the table |
| BuiltinLayouts.SpecialShape | layouts.py:3-40 | every special character is one character long; every special code is five characters, digit-led, whitespace-free, with '0' second |
| BuiltinLayouts.SpecialKeysDistinct | layouts.py:3-40 | no character appears twice in the special table |
| BuiltinLayouts.SpecialCodesDistinct | layouts.py:3-40 | no code appears twice in the special table |
| BuiltinLayouts.SpecialInverse | layouts.py:3-42 | the built-in decode table is an exact two-sided inverse of the encode table, and no special code is ever a builder code |
| BuiltinLayouts.BuiltinSpecialCoherent | layouts.py:3-42 | the built-in special tables satisfy the side condition of the round trips |
| BuiltinLayouts.BuiltinListing | layouts.py:45-208 | `list_layouts` gives ay, ck, dk, hr, jn, qy, qz, wn with their names, in that order, with no key twice |
| BuiltinLayouts.BuiltinBounds | layouts.py:45-166 | every built-in grid has at most 4 rows of at most 13 cells |
| BuiltinLayouts.BuiltinCodesShort | layouts.py:45-166 | every code of a built-in cell is five characters: one row digit and two column digits |
| BuiltinLayouts.BuiltinKeysNotCodes | layouts.py:45-166 | no built-in layout key starts with a digit |
| BuiltinLayouts.HcesarRepeats | layouts.py:95-97 | in HCESAR, 'r' encodes to its later cell's code 04x03, while both 02x06 and 04x03 decode to 'r' |
| BuiltinLayouts.QwertyNoRepeats | layouts.py:121-135 | no non-blank QWERTY key repeats within either grid or across the two |
| BuiltinLayouts.QwertyBijective | layouts.py:121-135 | QWERTY's tables built from nothing are exact inverses, and the encode and decode maps have equal size |
| BuiltinLayouts.GetSpecialMappings | layouts.py:229-237 | the two built-in tables, each an exact inverse of the other |
| BuiltinLayouts.KeyboardLayouts.constructor | layouts.py:45-166 | the registry starts as the built-in table |
| BuiltinLayouts.KeyboardLayouts.GetLayout | layouts.py:168-182 | the stored grids for a stored key, else ValueError |
| BuiltinLayouts.KeyboardLayouts.GetLayoutName | layouts.py:184-198 | the stored name for a stored key, else ValueError |
| BuiltinLayouts.KeyboardLayouts.ListLayouts | layouts.py:200-208 | one pair per stored layout; the listed keys are exactly the stored keys |
| BuiltinLayouts.KeyboardLayouts.AddLayout | layouts.py:210-227 | a present key gives ValueError and leaves the table unchanged; otherwise the record is inserted in memory |
| TableBuilder.CodeShape | encode_decode.py:39 | a code has at least five characters, starts with its layer prefix, has a digit 1-9 second, has no whitespace when the prefix is not one, and has exactly five characters when the row fits one digit and the column two |
| TableBuilder.CodeInjective | encode_decode.py:39 | equal codes come from the same prefix, row and column |
| TableBuilder.CodeDistinct | encode_decode.py:39 | different cells, or the same cell on different layers, get different codes |
| TableBuilder.CodeIsCode | encode_decode.py:39 | every builder code with a digit prefix is digit-led, has a digit 1-9 second (unlike every special code), at least five characters and no whitespace |
| TableBuilder.FillGrid | encode_decode.py:36-41 | the nested loops write into the tables exactly what the fold `AddGrid` specifies |
| TableBuilder.GridEnc | encode_decode.py:36-41 | after one grid, a non-blank string in it encodes to the code of its last cell; any other string keeps its old entry |
| TableBuilder.GridSkipsBlank | encode_decode.py:38 | blank and empty cells get no code |
| TableBuilder.GridDecAt | encode_decode.py:36-41 | after one grid, the code of a non-blank cell decodes to that cell's string, last writer included |
| TableBuilder.GridDecOtherLayer | encode_decode.py:35-41 | building the other layer never touches a code of this layer's prefix |
| TableBuilder.LayoutRoundTrip | encode_decode.py:35-41 | after a layout, every non-blank string of it encodes to a code that decodes back to it (uppercase wins), on top of any earlier tables |
| TableBuilder.LayoutIsMerge | encode_decode.py:35-41 | building both grids onto tables equals overlaying the two grids' fresh tables onto them |
| TableBuilder.FreshCoherent | encode_decode.py:35-41 | a layout built from nothing gives coherent tables, whose encode keys are exactly its non-blank strings |
| DistinctGrids.UniqueFromRows | layouts.py:121-135 | a grid whose rows are each repeat-free and pairwise apart is repeat-free |
| DistinctGrids.DistinctLayoutBijective | encode_decode.py:35-41 | for a layout with no repeated non-blank string, the fresh tables are exact inverses with equal sizes |
| Engine.Activate | encode_decode.py:30-41 | an already-encoded key changes nothing; otherwise an unknown key raises ValueError with the state untouched; a known key takes its stored grids and builds them on top of the current tables |
| Engine.ActivateRoundTrip | encode_decode.py:35-41 | after activating, every non-blank string of the layout round-trips, and every other string keeps its previous code |
| Engine.ActivateLeavesStaleCode | encode_decode.py:30-41 | an older layout's string keeps its code, but that code may now decode to the new layout's string |
| Engine.ActivateTwice | encode_decode.py:30-41 | activating the same layout again leaves the tables as they were |
| Engine.ActivateFromInitial | encode_decode.py:18-41 | the first activation after construction gives coherent tables holding exactly the layout's non-blank strings |
| Engine.CodeNotListed | encode_decode.py:89 | a digit-led token is never a layout key when no key starts with a digit |
| ClassCodec.EncodeChar | encode_decode.py:64-70 | a non-`~` character's token is the table code, else the special code, else U+FFFD |
| ClassCodec.DecodeToken | encode_decode.py:92-98 | a non-key token's piece is the table entry, else the special entry, else U+FFFD |
| ClassCodec.EncodePlain | encode_decode.py:56-70 | text without `~` gives exactly one token per character, in order, from the current tables, and changes no state |
| ClassCodec.DecodePlain | encode_decode.py:87-98 | tokens that are no layout key give one piece each, in order, and change no state |
| ClassCodec.EncodeFailureSticks | encode_decode.py:62 | once an activation raises, the rest of the text does not change the outcome |
| ClassCodec.DecodeFailureSticks | encode_decode.py:90 | once an activation raises, the remaining tokens do not change the outcome |
| ClassCodec.TildeToken | encode_decode.py:58-63 | a `~` never yields a table code: it yields its bare candidate key, only when that is registered, and nothing otherwise |
| ClassCodec.DirectiveOpens | encode_decode.py:58-63 | the `~` of `~key~` finds the closing marker, emits the bare key and activates its layout |
| ClassCodec.EncodeCharsFrom | encode_decode.py:56-70 | a stretch without `~` adds one token per character under the tables in force when the stretch starts |
| ClassCodec.DirectiveKeyReencoded | encode_decode.py:56-70 | the loop does not skip the key: `~key~` emits the key, then each key character under the new tables, and nothing for the closing `~` |
| ClassCodec.TokenRoundTrip | encode_decode.py:64-98 | with coherent tables and a fitting special table, a known character's token is a digit-led, whitespace-free code that decodes back to it |
| ClassCodec.RoundTrip | encode_decode.py:43-100 | decoding the encoding of text whose normalized characters are all known and not `~` gives the normalized text, and neither call changes the state |
| ClassCodec.EncodeDecode.constructor | encode_decode.py:8-21 | a fresh `LayoutFunctions` for directive keys, the given registry for grids, the special tables from `get_special_mappings`, empty tables and grids |
| ClassCodec.EncodeDecode.InitializeLayoutDictionaries | encode_decode.py:23-41 | the new state is `Activate`'s; on ValueError the state is unchanged |
| ClassCodec.EncodeDecode.EncodeDirective | encode_decode.py:58-63 | the `~` branch of one loop iteration, as the scan's step function specifies it |
| ClassCodec.EncodeDecode.EncodeText | encode_decode.py:43-72 | the encode scan's tokens joined by single spaces, or its ValueError; the state is the scan's final state |
| ClassCodec.EncodeDecode.DecodeText | encode_decode.py:74-100 | the decode scan's pieces concatenated, or its ValueError; the state is the scan's final state |
| FunctionalCodec.FreshGrid | code.py:5-16 | one grid's dicts: the encode keys are exactly the grid's non-blank strings, each maps to the code of its last cell, that code decodes back, and every decode key carries the prefix |
| FunctionalCodec.CreateEncodingDicts | code.py:5-16 | the loop-built dicts are the fresh grid's tables with the properties of `FreshGrid` |
| FunctionalCodec.MakeDicts | code.py:19-27 | the merge is the layout built from nothing: coherent, holding exactly both grids' strings, uppercase winning |
| FunctionalCodec.UppercaseWins | code.py:26 | in the merged table, a string of the uppercase grid has its uppercase code; any other has its lowercase code |
| FunctionalCodec.MergedDecodeDisjoint | code.py:27 | the lowercase and uppercase decode dicts share no code |
| FunctionalCodec.EncodeText | code.py:30-43 | one token per normalized character (table, then special, then U+FFFD), joined by single spaces |
| FunctionalCodec.DecodeText | code.py:46-58 | one piece per whitespace-separated code (table, then special, then U+FFFD), concatenated |
| FunctionalCodec.DecodeBlank | code.py:46-58 | blank input decodes to the empty string |
| FunctionalCodec.TokenRoundTrip | code.py:35-56 | a known character's token is a whitespace-free code that decodes back to it |
| FunctionalCodec.RoundTrip | code.py:19-58 | with `make_dicts`' tables and a fitting special table, decoding the encoding gives the normalized text back, for text whose characters are all known |
| LegacyCodec.LegacyChar | keyboard_encoding.py:69-76 | the token is the table code when non-empty; U+FFFD only when the character is missing from the table and the special table is empty; None exactly when the `or`/`get` finds nothing |
| LegacyCodec.LegacyToken | keyboard_encoding.py:99-106 | the same three cases for a token's piece |
| LegacyCodec.JoinTokens | keyboard_encoding.py:79 | `join` walking the tokens: TypeError exactly when some token is None, otherwise the strings joined by the separator |
| LegacyCodec.HaltedUnique | keyboard_encoding.py:57-78 | every bound after which the loop has stopped gives the same final state |
| LegacyCodec.DirectiveSkipsPastMarker | keyboard_encoding.py:62-78 | a valid directive with a closing marker emits the bare key and resumes two past that marker, so the character right after it gives no token |
| LegacyCodec.TildeNotKey | keyboard_encoding.py:62-78 | a `~` whose candidate is not a key emits nothing and moves on by one |
| LegacyCodec.LastTildeLoops | keyboard_encoding.py:62-78 | when the only `~` is at index p >= 1 and its candidate `text[p+1:-1]` is a key, no pass from an index at most p stops the loop: the `~` sends the index back to 1 |
| LegacyCodec.EncodeDiverges | keyboard_encoding.py:57-78 | from the start, such a text keeps the loop running for every bound |
| LegacyCodec.EncodeDivergesOnExample | keyboard_encoding.py:57-78 | "ab~qyZ" with "qy" registered never finishes encoding |
| LegacyCodec.PlainScan | keyboard_encoding.py:57-78 | text without `~` is scanned one character per pass, one token each, in order |
| LegacyCodec.UnknownCharCrashes | keyboard_encoding.py:69-79 | with a non-empty special table, any character unknown to both tables ends `encode_text` in TypeError |
| LegacyCodec.PlainAgreesWithClassVersion | keyboard_encoding.py:44-79 | where every character is known, the legacy encoding of text without `~` equals the class version's |
| LegacyCodec.DecodePlain | keyboard_encoding.py:94-106 | tokens that are no layout key give one piece each and change no state |
| LegacyCodec.UnknownTokenCrashes | keyboard_encoding.py:99-107 | with a non-empty special table, a token unknown to both tables ends `decode_text` in TypeError |
| LegacyCodec.KeyTokenRestoresDirective | keyboard_encoding.py:96-98 | a token that is a key of both registries activates that layout and gives back `~key~` |
| LegacyCodec.DecodeFailureSticks | keyboard_encoding.py:97 | once an activation raises, the remaining tokens do not change the outcome |
| LegacyCodec.EncodeDecode.constructor | keyboard_encoding.py:14-21 | as the class version's constructor |
| LegacyCodec.EncodeDecode.InitializeLayoutDictionaries | keyboard_encoding.py:23-42 | the new state is `Activate`'s; on ValueError the state is unchanged |
| LegacyCodec.EncodeDecode.EncodeDirective | keyboard_encoding.py:62-68 | the `~` branch of one pass, index step included, as the step function `Step` specifies it |
| LegacyCodec.EncodeDecode.EncodeText | keyboard_encoding.py:44-79 | on inputs where the loop stops, the result and state are those of the bounded iteration after it stops: TypeError, ValueError or the joined tokens |
| LegacyCodec.EncodeDecode.DecodeKey | keyboard_encoding.py:96-98 | the key branch of one loop iteration, as the decode step function specifies it |
| LegacyCodec.EncodeDecode.DecodeText | keyboard_encoding.py:81-107 | the decode scan's outcome (TypeError and ValueError included), and its final state |

## Left out

- Reading and writing `layouts.json` and `special_mappings.json`. Their contents are parameters of the constructors, and `None` stands for a missing or malformed file (which the source logs and replaces by an empty dict). The rewrite of `layouts.json` at the end of `add_layout` is not modelled.
- Stored records are taken to be well-formed: each has a name and both grids. A stored record that is empty, which `if layout:` treats as absent, is not modelled.
- `get_special_mappings`' catch-all `except Exception` path gives the same two empty tables as an unreadable file, so it is folded into `None`.
- Logging calls are not modelled; they have no effect on results.
- Unicode NFD is the parameter `nfd`, since the algorithm depends on the Unicode database.
- The console, GUI and web front-ends are not part of this model (`ConsoleInterface`, `MainWindow`, `Startup`, main.py, app.py, the JavaScript), nor is config.py. They only call the core.
- code.py's prompt loop `start` is not modelled. The module globals it sets and reads (`layout_lowercase`, `encode_dict`, `encode_special_mappings`, ...) are parameters and results of the modelled functions.
- LegacyCodec.EncodeDiverges: exhibits non-termination for texts whose only `~` is at an index p >= 1 with a registered candidate. Texts with further `~`s before p (non-key directives an earlier pass skips) can loop the same way and are not covered.
- LayoutStore.LayoutFunctions.constructor: requires the stored records to have distinct keys, because `json.load` returns a dict. The dict-building of a JSON object with a repeated key (last value kept, at the first position) is not modelled. The same holds for the special items passed to `LayoutStore.GetSpecialMappings` and to both `EncodeDecode` constructors.
- LegacyCodec.EncodeDecode.EncodeText: requires that its loop stops, because a Dafny method must terminate. `LegacyCodec.EncodeDiverges` exhibits inputs on which it does not stop.
