# breppy core, modelled in Dafny

breppy uploads torrents to three Luminance-based trackers: Empornium
(`Emp`), Enthralled (`Ent`) and PornBay (`Pbay`). This project models the
pure core of `src/breppy/__init__.py`:

- the configuration records. These are the two cookie shapes, the upload
  form defaults (`Payload`), one tracker's settings (`TrackerConfig`) and
  the built-in three-tracker configuration (`DefaultConfig`), whose
  entries come from `guess_tracker`.
- the start-up scan `find_empty_keys`. It walks the configuration after
  it has been turned into nested dicts of `str` and `int`, and reports the
  dotted key of every empty-string value.
- the upload form builder, `stringify_ints` and `prepare_upload`.
  `prepare_upload` needs Python's `str(int)` and `str.replace`, and both
  are modelled as well. Each has an independent partner: a parser for
  `str(int)`, and `str.split` with `str.join` for `str.replace`.

Modules:

| module | file | contents |
|---|---|---|
| `Strings` | `strings.dfy` | `str(int)` with its parser partner. `str.replace` with `str.split` / `str.join` as an independent description of it. |
| `EmptyKeys` | `emptykeys.dfy` | The plain value tree and `find_empty_keys` as a recursive method with a loop. The method is proved equal to a specification over the list of leaves. That specification is then proved sound, complete and ordered against dict lookup. |
| `Config` | `config.dfy` | The records with their defaults, `guess_tracker`, `DefaultConfig`, and the built-in-value view of a configuration. Also what the scan reports for the built-in and for filled-in configurations. |
| `Upload` | `upload.dfy` | `stringify_ints`, the font substitution, and `prepare_upload` as a method that builds the form map step by step. |

Conventions:

- The process-wide `CONFIG` is a parameter of the upload builder. It is a
  map from tracker name to `TrackerConfig`. `Config.ConfigMap` gives the
  map that the built-in configuration produces.
- The tracker's default form fields become the dict that
  `CONFIG[tracker]['payload']` yields, via `Config.PayloadDict`.
- How `msgspec.to_builtins` turns records into dicts is stated as a
  modelling assumption, not derived from that library:
  - a tagged cookie record becomes a dict with its `type` tag first, then
    its fields in declaration order;
  - every other record becomes a dict of its fields in declaration order.

  `Config.ConfigTree` and `Config.PayloadDict` are this conversion.

## Model

| member | source | states |
|---|---|---|
| Config.GuessTracker | src/breppy/__init__.py:48-57 | The URL is kept. The cookies are old-Luminance exactly when the URL is `https://www.pornbay.org`, and new-Luminance for every other URL. Every cookie field is empty and the form fields are the defaults. |
| Config.DefaultConfigShape | src/breppy/__init__.py:60-69 | The built-in configuration has the Empornium, Enthralled and PornBay URLs. It gives new-Luminance cookies to `Emp` and `Ent` and old-Luminance cookies to `Pbay`, all fields empty, and the default form fields everywhere. |
| Config.ConfigMap | src/breppy/__init__.py:60-69 | The trackers are keyed by exactly `Emp`, `Ent` and `Pbay`, each mapped to its entry. `PBay` is not a key. |
| Config.CookiesTree | src/breppy/__init__.py:22-28 | The built-in-value view of a cookie record: its `type` tag first, then its string fields in declaration order. `Config.CookiesScan` states what the scan reports for it. |
| Config.PayloadDict | src/breppy/__init__.py:31-39 | The dict that `CONFIG[tracker]['payload']` yields at line 152: one entry per form field, keyed by the field's name. `Upload.PayloadDictKeys` and `Upload.PayloadDictValues` state its keys and values. |
| Config.ConfigTree | src/breppy/__init__.py:117 | The configuration after `to_builtins`: a dict of the three trackers, each a dict of `url`, `cookies` and `payload`. `Config.ScanReportsEmptyFields` states what the scan reports for it. |
| Config.LeafEntries | src/breppy/__init__.py:31-39 | The scan's view of the form fields is built from the upload builder's field list: one leaf per field, with the same name and value, in the order `PayloadFields` lists them. |
| Config.CookiesScan | src/breppy/__init__.py:22-28 | Scanning converted cookies reports the empty cookie fields, by dotted name, in declaration order. The `type` tag is never reported. |
| Config.PayloadScan | src/breppy/__init__.py:31-39 | Scanning converted form fields reports the empty string fields in declaration order. Integer fields are never reported. |
| Config.TrackerScan | src/breppy/__init__.py:42-45 | Scanning one converted tracker reports an empty URL, then the cookie gaps, then the form gaps. |
| Config.ScanReportsEmptyFields | src/breppy/__init__.py:137 | For every configuration, the start-up scan reports exactly the empty string fields of the typed configuration. They come by dotted name, in declaration order. |
| Config.DefaultPayloadGaps | src/breppy/__init__.py:31-39 | Of the default form fields, only `auth` is empty. |
| Config.GuessedTrackerGaps | src/breppy/__init__.py:48-57 | A tracker guessed from a non-empty URL is missing exactly its cookie fields and `auth`. Those are `session` for PornBay and `cid`, `sid` otherwise. |
| Config.DefaultConfigTypedGaps | src/breppy/__init__.py:60-69 | The built-in configuration's empty fields, in order: `Emp.cookies.cid`, `Emp.cookies.sid`, `Emp.payload.auth`, the same three for `Ent`, then `Pbay.cookies.session` and `Pbay.payload.auth`. |
| Config.DefaultConfigGaps | src/breppy/__init__.py:137-142 | The start-up scan of the built-in configuration reports those eight keys, in that order. |
| Config.PopulatedHasNoGaps | src/breppy/__init__.py:137-142 | A configuration with every string field filled in draws no warning. |
| Config.OnlyEmpAuthMissing | src/breppy/__init__.py:137-142 | If `Emp.payload.auth` is the only empty field, exactly `Emp.payload.auth` is reported. |
| EmptyKeys.FindEmptyKeys | src/breppy/__init__.py:120-134 | The result is the dotted keys of all empty-string leaves in iteration order. A leaf yields `[current_key]` when it is `''` and nothing otherwise. The loop invariant ties the keys found so far to the leaves of the entries scanned so far. |
| EmptyKeys.LeafKeys | src/breppy/__init__.py:123-128 | A non-dict value is reported, under the current key itself, exactly when it is the empty string. |
| EmptyKeys.EmptyKeysOfDict | src/breppy/__init__.py:130-134 | A dict's findings are each entry's findings under that entry's key, concatenated in iteration order. |
| EmptyKeys.EmptyKeysSound | src/breppy/__init__.py:120-134 | Every reported key is the key of a path whose dict lookup gives the empty string. |
| EmptyKeys.EmptyKeysComplete | src/breppy/__init__.py:120-134 | Every path whose lookup gives the empty string is reported under its key. |
| EmptyKeys.EmptyKeysInOrder | src/breppy/__init__.py:130-134 | For two empty leaves, the earlier one in dict iteration order is reported at an earlier position. |
| EmptyKeys.EmptyKeysNoneIffNoEmptyLeaf | src/breppy/__init__.py:120-142 | The scan reports nothing exactly when no leaf is the empty string, which is when the warning is not logged. |
| EmptyKeys.DottedKey | src/breppy/__init__.py:131 | At the top level, a path whose first key is non-empty is reported as its keys joined by `.`, with no leading dot. |
| EmptyKeys.ChildKey | src/breppy/__init__.py:131 | The key of a child entry: `current_key.key`, or `key` alone at the top level. `EmptyKeys.DottedKey` states the key a whole path gets. |
| EmptyKeys.LeavesSound | src/breppy/__init__.py:130-132 | In a tree with distinct dict keys, every listed leaf is found by looking up its path. |
| EmptyKeys.LeavesComplete | src/breppy/__init__.py:130-132 | Every leaf reachable by lookup is listed with its path. |
| Upload.StringifyInts | src/breppy/__init__.py:145-146 | The same keys, each value replaced by its `str` form. |
| Upload.StringifyIntsLossless | src/breppy/__init__.py:145-146 | A string value is kept as it is. An integer value becomes a canonical decimal that reads back as the same integer. |
| Upload.ValueToString | src/breppy/__init__.py:146 | `str(value)` for one dict value: a string is kept and an integer becomes its decimal form. `Upload.StringifyIntsLossless` states that this loses nothing. |
| Upload.PayloadDictKeys | src/breppy/__init__.py:31-39 | The converted form has exactly the eight declared field names. |
| Upload.PayloadDictValues | src/breppy/__init__.py:31-39 | Each converted form field holds its record field's value. |
| Upload.StringifiedPayload | src/breppy/__init__.py:145-146 | The stringified form of a tracker's fields, given field by field. |
| Upload.DefaultFormFields | src/breppy/__init__.py:31-39 | The default fields stringify to `auth=''`, `checkonly='check for dupes'`, `submit='true'`, `genre_tags='---'`, `fontfont='-1'`, `fontsize='-1'`, `MAX_FILE_SIZE='2097152'` and `anonymous='1'`. |
| Upload.FieldNamesApart | src/breppy/__init__.py:152-165 | `checkonly` is always present, so the pop at line 153 cannot fail. No form field shares a name with a field the upload adds, so no default is overwritten. |
| Upload.PrepareUpload | src/breppy/__init__.py:149-170 | The result holds every stringified default except `checkonly`, unchanged, plus `ignoredupes='1'`, `category=str(category)`, `title` and `image=cover`. It also holds `taglist`/`desc=bbcode` for `Emp` and `Ent`, and `tags`/`desc`=the font-substituted bbcode for `PBay`. Any other tracker name gets neither. The key set is stated exactly. |
| Upload.DefaultPbayUpload | src/breppy/__init__.py:152-168 | With the built-in configuration, an upload to `Pbay` gets no `tags`, no `taglist` and no `desc` field, because the branch at line 164 matches only `PBay`. |
| Upload.FontSubstitution | src/breppy/__init__.py:166-168 | The PornBay description: `[font=Aleo]` replaced by `[font=Palatino Linotype]`, then `[font=Quantico]` replaced by `[font=Microsoft Sans Serif]`. Its meaning is stated by `Upload.FontSubstitutionStages` and `Upload.FontSubstitutionWithoutFonts`. |
| Upload.FontSubstitutionWithoutFonts | src/breppy/__init__.py:166-168 | A description without either font tag is sent unchanged. |
| Upload.FontSubstitutionStages | src/breppy/__init__.py:166-168 | Each replacement stage keeps the text between tags and swaps only the tags: it splits on the old tag and joins with the new one. |
| Strings.IntToString | src/breppy/__init__.py:155 | `str(i)` is a canonical decimal: digits, no leading zero, never `-0`. It starts with `-` exactly for negative `i`. |
| Strings.NatToStringCanonical | src/breppy/__init__.py:155 | The decimal form of a natural number is canonical, and it is `0` only for zero. |
| Strings.IntToStringRoundTrip | src/breppy/__init__.py:155 | Parsing `str(i)` gives `i` back. |
| Strings.IntToStringInjective | src/breppy/__init__.py:155 | Different categories give different form values. |
| Strings.ReplaceAll | src/breppy/__init__.py:166-168 | `s.replace(pat, rep)`: every non-overlapping occurrence of `pat`, scanning left to right, is replaced by `rep`. `Strings.ReplaceIsJoinOfSplit` states its meaning, and `Strings.SplitCutsAtFirst` fixes which occurrences are cut when they overlap. |
| Strings.ReplaceIsJoinOfSplit | src/breppy/__init__.py:166-168 | `s.replace(pat, rep) == rep.join(s.split(pat))` for a non-empty `pat`. |
| Strings.ReplaceAbsent | src/breppy/__init__.py:166-168 | A string that does not contain the pattern is left as it is. |
| Strings.SplitJoinRoundTrip | src/breppy/__init__.py:166-168 | Joining the pieces of a split with the separator gives the string back. This is the partner that makes `ReplaceIsJoinOfSplit` a description of what replacement keeps. |
| Strings.SplitPiecesFree | src/breppy/__init__.py:166-168 | No piece of a split contains the separator, so every occurrence of the old tag is removed. |
| Strings.SplitCutsAtFirst | src/breppy/__init__.py:166-168 | A split cuts at the leftmost occurrence of the separator. No occurrence starts inside the first piece. The string is one piece exactly when nothing is cut. Otherwise the separator follows the first piece, and the other pieces are the split of what comes after it. This fixes the pieces even when the separator overlaps itself, as for `"aaa"` split on `"aa"`. |

## Left out

- Configuration files are not modelled: `get_config_path`, `load_config`, `save_config` and `load_or_create_config` (lines 72-114). They do file I/O, TOML encoding through `msgspec.toml` and `tomlkit`, and platform directories.
- Logging is not modelled: the set-up at lines 13-15 and the text of the warning at lines 139-142. `EmptyKeys.EmptyKeysNoneIffNoEmptyLeaf` states only when the warning is logged.
- The module-level globals `CONFIG` (line 117) and `EMPTY_KEYS` (line 137) are not modelled as state. The configuration is a parameter instead.
- `build`, `grab_collage_token`, `collage` and `legacy_collage` are not modelled (lines 173-238). They do HTTP requests, HTML parsing and file reads. `legacy_collage` also reads `CONFIG[tracker]['auth']`, a key that no tracker entry has.
- `msgspec.to_builtins` is foreign library code. The shape it produces is the assumption described above, not something derived from the library.
- Dict insertion order is not modelled for the maps of `stringify_ints` and `prepare_upload`. Dafny maps are unordered, so only keys and values are stated. The scan's tree keeps entry order, and that order is proved.
- Upload.PrepareUpload: a tracker name that is not a key of the configuration raises `KeyError` at line 152. The model requires the key instead of modelling that exception.
- Upload.PrepareUpload: the `PBay` branch is kept exactly as written, with its upper-case `B`. The configuration's key is `Pbay` (`Config.ConfigMap`). So with the built-in configuration, uploading to `Pbay` gets neither `tags` nor `desc` (`Upload.DefaultPbayUpload`), and `PBay` fails the key requirement. The casing is not changed.
- Strings.IntToString: CPython's limit of 4300 digits on converting an integer to a string is not modelled. Since version 3.10.7 (and the `match` at line 159 needs 3.10), `str(category)` at line 155 raises `ValueError` past that limit. The model renders every integer, so `Upload.PrepareUpload` returns a form for any `category`.
- `find_empty_keys` is modelled on dicts of `str` and `int` leaves only. Lists and other `to_builtins` outputs never occur in this configuration.
