# Directory snapshot tree and JSON secret masking, in Dafny

This project models the two data-processing parts of the directory-snapshot
utility that ships beside a YouTube-to-Reddit reposting tool:

- **The snapshot tree** (`snapshots/py/hierarchy.py`):
  - `build_hierarchy` mirrors a directory as a nested list. A file is its name and a folder is `{name: children}`.
  - `filter_hierarchy` prunes that tree with substring *ignore* and *focus* patterns. It also rewrites each surviving file to its path from the root.
  - `print_hierarchy` renders the tree as an indented outline.
- **The secret masker** (`snapshots/py/obfuscate_json.py`). `obfuscate_sensitive_data` walks a parsed JSON object. Under a key that looks sensitive, it replaces every word or whitespace character of a string value with `X`.

Files:

- `text.dfy` (module `Text`): Python's substring test `p in s` and ASCII `str.lower()`.
- `hierarchy.dfy` (module `Hierarchy`):
  - the tree `Node = File(name) | Folder(name, children)` and an abstract directory listing `Entry`;
  - `os.path.join` and `os.path.basename`;
  - the three operations.
- `obfuscate_json.dfy` (module `ObfuscateJson`):
  - the JSON value `Json = Obj | Str | Num | Bool | Null | Arr`;
  - the sensitive-key list, the masking, and the obfuscation.

The Python functions each build their result in a `for` loop that appends to a
fresh accumulator and recurse into folders or nested objects. Each is modelled
as a Dafny `method` with the same loop and recursion. Each method is proved equal
to a recursive specification function (`Built`, `Filter`, `Render`,
`Obfuscate`). The lemmas state what the program promises about those functions.

## Model

| member | source | states |
|---|---|---|
| `Text.ContainsSound` | snapshots/py/hierarchy.py:43 | when the substring test `pattern in name` answers yes, the pattern occurs at some position of the name |
| `Text.ContainsComplete` | snapshots/py/hierarchy.py:43 | every occurrence of the pattern at any position makes the substring test answer yes |
| `Text.ContainsIff` | snapshots/py/hierarchy.py:43-44 | the substring test holds exactly when the pattern occurs somewhere in the name (both directions) |
| `Text.AnyContainsIff` | snapshots/py/hierarchy.py:43-50 | `any(pattern in name for pattern in patterns)` holds exactly when some pattern of the list occurs at some position of the name (both directions). An empty list matches nothing. |
| `Text.NotContainsLonger` | snapshots/py/hierarchy.py:49 | a pattern longer than the name never matches it |
| `Text.Lower` | snapshots/py/obfuscate_json.py:18 | lower-casing keeps the length. Each upper-case ASCII letter becomes its lower-case letter (`A`..`Z` to `a`..`z`). Every other character is kept, so no upper-case letter remains. |
| `Hierarchy.Join` | snapshots/py/hierarchy.py:42 | with an empty base, as at the top level, the joined path is the name itself. With a non-empty base it is the base, one `/`, then the name. |
| `Hierarchy.Basename` | snapshots/py/hierarchy.py:74 | the base name has no `/`, is a suffix of the path, is preceded by `/` when shorter than the path, is the whole path when the path has no `/`, and holds only characters of the path |
| `Hierarchy.BasenameOfJoin` | snapshots/py/hierarchy.py:42-45 | for any base and name, the base name of `join(base, name)` is the base name of `name`. That is `name` itself when `name` is a single path component. |
| `Hierarchy.BasenameSnoc` | snapshots/py/hierarchy.py:74 | appending a character other than `/` to a path appends it to the base name |
| `Hierarchy.BuildHierarchy` | snapshots/py/hierarchy.py:4-18 | the loop over the listing, with recursion into directories, yields exactly the tree `Built` describes |
| `Hierarchy.BuildMirrorsListing` | snapshots/py/hierarchy.py:11-17 | building keeps one node per regular file or directory, in listing order. Files become bare-name leaves. Directories become folders of the tree built from their own listing. Every other kind of entry is skipped at every depth. |
| `Hierarchy.BuildOfUnbuilt` | snapshots/py/hierarchy.py:11-17 | each tree is the build of exactly one listing made of files and directories, so the mirror is faithful both ways |
| `Hierarchy.FilterHierarchy` | snapshots/py/hierarchy.py:21-55 | the loop, with its early return on an empty input, yields exactly `Filter`. An empty hierarchy gives an empty result. |
| `Hierarchy.SurvivorsInOrder` | snapshots/py/hierarchy.py:39-50 | the surviving input positions are valid and strictly increasing. A position survives iff its node's own name contains no ignore pattern and (the focus list is empty or the name contains a focus pattern). This holds for files and folders alike. |
| `Hierarchy.FilterIsSubsequence` | snapshots/py/hierarchy.py:39-53 | the k-th output node comes from the k-th surviving position. A file becomes `File(join(base, name))`. A folder keeps its name, and its children are filtered with the same ignore patterns, an empty focus list and base `join(base, name)`. So the output is an order-preserving subsequence, and a dropped folder loses its whole subtree. |
| `Hierarchy.IgnoredNeverSurvive` | snapshots/py/hierarchy.py:43-52 | after filtering, no file's base name and no folder's name contains an ignore pattern, at any depth. This holds for any focus list. |
| `Hierarchy.FilterWithoutPatterns` | snapshots/py/hierarchy.py:43-52 | with both pattern lists empty, filtering equals the independent reference `Qualified`: the same tree, each file leaf replaced by its path from the root |
| `Hierarchy.StrippedQualified` | snapshots/py/hierarchy.py:42-45 | qualification keeps the number of nodes at each level. Cutting each leaf back to its base name gives the original tree. |
| `Hierarchy.IgnoreDropsSubtree` | snapshots/py/hierarchy.py:47-53 | `[{"src": ["a.txt", {"secrets": ["b.env"]}]}]` with ignore `["secrets"]` becomes `[{"src": ["src/a.txt"]}]` |
| `Hierarchy.FocusOnlyAtTopLevel` | snapshots/py/hierarchy.py:50-52 | with focus `["source"]`, the nested `a.txt` is kept as `source/a.txt` although it does not match, while the top-level `a.md` is dropped |
| `Hierarchy.PrintHierarchy` | snapshots/py/hierarchy.py:62-80 | the loop that appends to the output string, with recursion at indent + 2, yields exactly `Render` |
| `Hierarchy.OneLinePerNode` | snapshots/py/hierarchy.py:71-79 | the outline holds exactly one line break per node at every depth, given that no name contains a line break |
| `Hierarchy.OneLineForNode` | snapshots/py/hierarchy.py:72-79 | a file contributes one line. A folder contributes its own line plus one line per node below it. |
| `Hierarchy.PrintFileLine` | snapshots/py/hierarchy.py:72-75 | a file leaf prints as `indent` spaces, `- `, the file's base name and a line break, even when the leaf holds a joined path |
| `Hierarchy.PrintFolderWithFile` | snapshots/py/hierarchy.py:76-79 | a folder prints as `+ name/` on its own line, and its children follow two columns further in |
| `Hierarchy.PrintIgnoresQualification` | snapshots/py/hierarchy.py:73-75 | the printer strips paths, so printing any tree filtered with no patterns gives the outline of the unfiltered tree |
| `Hierarchy.RenderQualified` | snapshots/py/hierarchy.py:73-75 | for any tree, prefixing each file leaf with its folder path leaves the outline unchanged |
| `ObfuscateJson.ObfuscateSensitiveData` | snapshots/py/obfuscate_json.py:6-22 | the loop that fills a fresh object key by key, recursing into nested objects, yields exactly `Obfuscate`. A value that is not an object is refused. |
| `ObfuscateJson.ObfuscatedMember` | snapshots/py/obfuscate_json.py:15-21 | the output has as many members as the input and keeps each member's key. A nested object is replaced by its obfuscated version. A string is masked exactly when its key is sensitive. Numbers, booleans, null and arrays are copied unchanged, even under sensitive keys and even when the arrays hold objects. |
| `ObfuscateJson.KeysPreserved` | snapshots/py/obfuscate_json.py:14-22 | the output object has exactly the input's keys, in the same order |
| `ObfuscateJson.Mask` | snapshots/py/obfuscate_json.py:19 | masking keeps the length. Each word or whitespace character becomes `X`. Every other character stays in place. |
| `ObfuscateJson.SensitiveIff` | snapshots/py/obfuscate_json.py:4-18 | a key is sensitive exactly when, with both lower-cased, one of the eight entries of the sensitive-key list occurs at some position of the key (both directions) |
| `ObfuscateJson.MaskIdempotent` | snapshots/py/obfuscate_json.py:19 | masking a masked string changes nothing |
| `ObfuscateJson.MaskHides` | snapshots/py/obfuscate_json.py:19 | a masked string holds only `X` and characters that are neither word nor whitespace |
| `ObfuscateJson.ObfuscatedIsSanitized` | snapshots/py/obfuscate_json.py:16-19 | after obfuscation, every string under a sensitive key, at any depth of object nesting, holds only `X`s and punctuation |
| `ObfuscateJson.ObfuscateMembersIdempotent` | snapshots/py/obfuscate_json.py:15-21 | obfuscating the members of an obfuscated object changes nothing |
| `ObfuscateJson.ObfuscateValueIdempotent` | snapshots/py/obfuscate_json.py:16-21 | obfuscating an obfuscated value under the same key changes nothing |
| `ObfuscateJson.ObfuscateIdempotent` | snapshots/py/obfuscate_json.py:6-22 | running the obfuscator on its own output is a no-op |
| `ObfuscateJson.SensitiveIgnoresCase` | snapshots/py/obfuscate_json.py:4 | keys are matched case-insensitively, so `GitHub_Token` is sensitive through the entry `token` |
| `ObfuscateJson.NameNotSensitive` | snapshots/py/obfuscate_json.py:4 | the key `name` contains none of the sensitive entries |
| `ObfuscateJson.ApiKeySensitive` | snapshots/py/obfuscate_json.py:4 | the key `api_key` is sensitive |
| `ObfuscateJson.MaskExample` | snapshots/py/obfuscate_json.py:19 | `p@ss-word!` masks to `X@XX-XXXX!`: `\w` includes letters, digits and `_`, and punctuation is kept |
| `ObfuscateJson.MaskAllWordChars` | snapshots/py/obfuscate_json.py:19 | `abc123` masks to `XXXXXX` |
| `ObfuscateJson.ObfuscateExample` | snapshots/py/obfuscate_json.py:15-21 | `{"api_key": "abc123", "name": "ok"}` becomes `{"api_key": "XXXXXX", "name": "ok"}` |

## Left out

- `build_hierarchy` reads the real file system (`os.listdir`, `os.path.isfile`, `os.path.isdir`). The model takes the listing as an abstract value `Entry`. The platform's listing order is that value's order. Errors such as a missing root are not modelled.
- `Hierarchy.Join` and `Hierarchy.Basename` are the POSIX behaviour for relative, non-empty components. An absolute component, a trailing `/` on the base and Windows separators are not modelled. Names read from a listing never hit those cases.
- `Text.Lower`, `ObfuscateJson.IsWordChar` and `ObfuscateJson.IsSpaceChar` agree with Python's `str.lower()`, `\w` and `\s` on ASCII characters only. `\s` includes the separators 0x1C to 0x1F. Outside ASCII, Python also lower-cases and masks non-ASCII letters, digits and spaces (for example `É`, `٣`, U+00A0, U+2028). The model leaves those characters unchanged.
- Folders are modelled as one name plus children. A dictionary with several keys, which `filter_hierarchy` would expand into several folders, cannot be built by `build_hierarchy` and is not represented.
- A JSON object is its sequence of members in insertion order. A Python dict cannot hold a key twice, so the model is only meant for member sequences with distinct keys. `KeysPreserved` shows that distinctness carries over to the output.
- Numbers are modelled as `real`. Their representation does not matter, because they are only copied.
- Aliasing is not modelled. Dafny values are immutable, so "returns a new dict and leaves the input alone" holds by construction and has no separate statement.
- `snapshots/py/md_output.py` is not part of this model. It is file I/O and encoding detection around path joining.
- `run.py` is not part of this model. It is the YouTube and Reddit API clients, configuration loading, logging and interactive prompts.
