# Code Quarkus launcher and query builder, in Dafny

This project models the two pieces of logic in `src/utils.ts` of the Raycast
extension for code.quarkus.io, and proves properties about them.

- **The query builder.** `getParams` turns the form's `Configuration` into the
  `URLSearchParams` list that the code.quarkus.io generator reads.
  `getCodeQuarkusUrl` appends that list, serialized, to the service's base URL.
  - `URLSearchParams` is modelled as a list of name-value pairs.
  - `set` and `append` follow the URL Standard: `set` replaces the first pair
    with the name, drops the others and appends when the name is absent.
  - The builder is the literal sequence of `set`/`append` calls of the source.
  - Serialization is the application/x-www-form-urlencoded serializer of
    section 5.2 of the WHATWG URL Standard. That is UTF-8, then `+` for a
    space, the unreserved bytes as they are, and `%XX` for every other byte.
  - A strict parser (section 5.1 of the same Standard) is the serializer's
    partner: the query part of every URL parses back to exactly the builder's
    list.
- **The editor launcher.** `openInIDE` dispatches on the lower-cased editor
  name. `openInClassicApp` makes one `open -a` launch. `openInIntellij` tries
  five well-known bundle names, then the IntelliJ/JetBrains entries of
  `/Applications`, stopping at the first that opens. When none opens it falls
  back to the JetBrains Toolbox command line.
  - The operating system is a `Host` value. It says which launches succeed,
    what `/Applications` lists (or that reading it throws) and what
    `path.normalize` returns.
  - A request's result records the launches in order and how the request
    ended.

Modules:
- `wrappers.dfy`: `Option` and `Result`.
- `text.dfy`: ASCII lower-casing, substring search, splitting and joining.
- `utf8.dfy`: the UTF-8 encoder and a strict decoder.
- `form_urlencoded.dfy`: the urlencoded serializer and parser.
- `search_params.dfy`: the `URLSearchParams` list with `set`, `append` and `getAll`.
- `query_builder.dfy`: `getParams` and `getCodeQuarkusUrl`.
- `ide_launcher.dfy`: `openInIDE`, `openInClassicApp` and `openInIntellij`.

## Model

| member | source | states |
|---|---|---|
| QueryBuilder.GetParamsIsWire | src/utils.ts:117-145 | Every `set` of `getParams` meets a name not yet present, so none overwrites anything. The built list is exactly the four required pairs, then the truthy optional ones, then `nc` and `v`, then one `e` per dependency. |
| QueryBuilder.FieldCallsFresh | src/utils.ts:121-134 | No `set` call of the builder uses a name an earlier call already added. |
| QueryBuilder.BuilderCallsFresh | src/utils.ts:121-141 | Neither the `set` calls nor the `append` calls that follow them meet a name already present when a `set` runs. |
| QueryBuilder.GetParamsNames | src/utils.ts:117-145 | The names come out in the order `j`, `S`, `cn`, `b`, then `g` and `a` if truthy, then `nc`, `v`, then one `e` per dependency. No other name appears. |
| QueryBuilder.GetParamsGetAll | src/utils.ts:117-145 | For every name, `getAll` on the built list equals an independent per-name table of what the generator should receive. |
| QueryBuilder.WireGetAll | src/utils.ts:117-145 | `getAll` on the built list is the concatenation of what each group of pairs holds for that name. |
| QueryBuilder.RequiredGetAll | src/utils.ts:121-126 | The always-sent pairs hold the Java version under `j`, the platform version under `S`, `code.quarkus.io` under `cn` and the build tool under `b`. They hold nothing under any other name. |
| QueryBuilder.OptionalGetAll | src/utils.ts:129-130 | The optional pairs hold the group under `g` and the artifact under `a`, each only when truthy. They hold nothing else. |
| QueryBuilder.TrailingGetAll | src/utils.ts:133-134 | The trailing pairs hold the inverted starter-code flag under `nc` and the version under `v`. They hold nothing else. |
| QueryBuilder.GetParamsRequired | src/utils.ts:121-134 | `j`, `S`, `cn`, `b` and `v` each occur exactly once, carrying the configuration's value (`code.quarkus.io` for `cn`). |
| QueryBuilder.GetParamsOptional | src/utils.ts:129-130 | `g` and `a` occur once, with the field's value, when the field is truthy. They are absent when it is undefined or empty. |
| QueryBuilder.NoCode | src/utils.ts:133 | The `nc` flag is `"false"` exactly when starter code is wanted and `"true"` exactly when it is not. |
| QueryBuilder.GetParamsNoCode | src/utils.ts:133 | The built list holds exactly one `nc` value. It is `"false"` exactly when starter code is wanted and `"true"` exactly when not. |
| QueryBuilder.ExtensionPairs | src/utils.ts:137-141 | There is one `e` pair per dependency, at the same position and with the same identifier. |
| QueryBuilder.GetParamsExtensions | src/utils.ts:137-141 | `getAll("e")` is the dependency list in input order. Without dependencies there is no `e` at all. |
| QueryBuilder.CodeQuarkusUrl | src/utils.ts:147-149 | The URL is the base URL, then `?`, then text that the urlencoded parser turns back into exactly the built list. |
| SearchParams.Set | src/utils.ts:121-134 | After `set(name, value)`, `getAll(name)` is `[value]` and every other name keeps its values. A name not yet present is appended at the end. A name already present keeps the position of its first pair, which takes the new value. Every later pair with that name is dropped, and the other pairs keep their order. |
| SearchParams.ReplaceFirst | src/utils.ts:121-134 | Rewriting the first pair with a name leaves `value` as that name's only value and leaves every other name's values untouched. |
| SearchParams.FirstIndex | src/utils.ts:121-134 | The position found holds a pair with the name, and no earlier pair has it. |
| SearchParams.SetInPlace | src/utils.ts:121-134 | Setting `a` to `3` in `a=1&b=2` gives `a=3&b=2`: the pair stays first. |
| SearchParams.Append | src/utils.ts:139 | After `append(name, value)`, the name is added after all existing names. `getAll(name)` gains `value` at its end, and every other name keeps its values. |
| SearchParams.RunFresh | src/utils.ts:118-141 | When no `set` meets a name already present, performing the calls just appends each call's pair, in call order. |
| SearchParams.AppendsAreFresh | src/utils.ts:137-141 | A run of `append` calls never breaks that freshness condition. |
| FormUrlEncoded.EncodeByte | src/utils.ts:148 | A serialized byte is 1 to 3 ASCII bytes, never `&` or `=`. `+` appears only for a space. |
| FormUrlEncoded.Encode | src/utils.ts:148 | A serialized name or value is ASCII and never contains the delimiters `&` and `=`. |
| FormUrlEncoded.DecodeEncode | src/utils.ts:148 | The parser's decoding recovers every string from its serialized form. |
| FormUrlEncoded.ParseSerialize | src/utils.ts:148 | Parsing the serialization of any list gives back that list, names and values in order. |
| Utf8.EncodeChar | src/utils.ts:148 | A character takes 1 to 4 bytes according to its code point. It is one byte exactly for ASCII. A multi-byte form starts with a lead byte of the range its width requires (C2-DF, E0-EF or F0-F4), followed by continuation bytes. |
| Utf8.DecodeEncode | src/utils.ts:148 | Decoding the UTF-8 encoding of any string gives the string back. |
| Utf8.EncodeDecode | src/utils.ts:148 | Whatever the strict decoder accepts is exactly the encoding of what it returns. |
| Utf8.DecodeCharSound | src/utils.ts:148 | A decoded character was written in its one shortest encoding. |
| Text.SplitJoin | src/utils.ts:148 | Splitting on the separator undoes joining parts that do not contain the separator. |
| Text.Lower | src/utils.ts:15 | Lower-casing keeps the length and lowers each ASCII capital letter, leaving every other character alone. |
| Text.Includes | src/utils.ts:62 | `includes` is true exactly when the substring occurs at some position. |
| IdeLauncher.Dispatch | src/utils.ts:15-24 | The lower-cased name `vscode` selects Visual Studio Code, `vscodium` selects VSCodium and `intellij` selects the IntelliJ resolution, each if and only if. Any other name fails with `Unsupported IDE: ` followed by the name as given. |
| IdeLauncher.DispatchIgnoresCase | src/utils.ts:15 | Editor names that differ only in ASCII letter case are dispatched alike. |
| IdeLauncher.OpenInIdeRoutes | src/utils.ts:12-24 | `vscode` and `vscodium` make exactly one launch of their application on the normalized path. `intellij` runs the IntelliJ resolution on the normalized path. Any other name launches nothing and fails as unsupported. |
| IdeLauncher.OpenInIdeSound | src/utils.ts:12-42 | For every editor name and host, the request succeeds exactly when its last launch did, and every earlier launch failed. The reported method is that last launch. Nothing is launched exactly when the name is unsupported. |
| IdeLauncher.IntelliJSound | src/utils.ts:44-103 | The IntelliJ resolution has that same shape on every host. |
| IdeLauncher.ResolveSound | src/utils.ts:74-100 | The candidate loop with the Toolbox fallback has that shape for any candidate list. |
| IdeLauncher.Discovered | src/utils.ts:61-63 | A directory entry is kept exactly when its lower-cased name contains `intellij` or `jetbrains`. |
| IdeLauncher.DiscoveredAppend | src/utils.ts:61-63 | The filter keeps listing order: it distributes over concatenation. |
| IdeLauncher.Candidates | src/utils.ts:50-71 | The five well-known names come first, then the filtered directory entries in listing order. Only the five names are tried when the directory cannot be read. |
| IdeLauncher.ScanCandidates | src/utils.ts:74-86 | The names tried are a prefix of the candidates. Every tried name failed except the last, which opened exactly when some candidate opens. Without a success, every candidate was tried. |
| IdeLauncher.TryCandidates | src/utils.ts:74-86 | The loop with `break` computes the same names tried and the same winner as the scan. |
| IdeLauncher.ScanDetermined | src/utils.ts:74-86 | Any outcome that meets the scan's contract is the scan's result. |
| IdeLauncher.IntelliJStopsAtFirst | src/utils.ts:76-89 | If candidate `k` is the first that opens, IntelliJ opens with it after exactly candidates `0..k` were launched, and the Toolbox is never tried. |
| IdeLauncher.IntelliJFallsBack | src/utils.ts:88-99 | If no candidate opens, every candidate is launched in order and then the Toolbox once. The request succeeds exactly when the Toolbox does. Otherwise it fails with `Could not open IntelliJ with any known method`. |
| IdeLauncher.ResolveTriesOnlyCandidates | src/utils.ts:76-99 | Only candidates are opened with `open -a`, and the only failure is "not found". |
| IdeLauncher.IntelliJSurvivesUnreadableDirectory | src/utils.ts:59-71 | When `/Applications` cannot be read, only the well-known names are opened, and a failure is still "not found", never the read error. |
| IdeLauncher.IntelliJOnlyCommunityInstalled | src/utils.ts:50-89 | With only `IntelliJ IDEA CE.app` installed, it opens after the first two well-known names were tried, and the Toolbox is not tried. |
| IdeLauncher.IntelliJNothingWorks | src/utils.ts:59-99 | With nothing installed, an unreadable directory and a failing Toolbox, there are six launches and the result is "not found". |

## Left out

- `unzipFile` (src/utils.ts:105-115) is not modelled. It is a call into an archive library plus disk I/O, with no logic of its own.
- `src/api.ts` is not part of this model, so `BASE_URL` is a parameter of `QueryBuilder.CodeQuarkusUrl`.
- `src/models/Configuration.ts` is not part of this model. `Configuration` gives `group`, `artifact` and `dependencies` as optional and every other field as a plain string or boolean.
- Process launches are not modelled. `exec` and `execSync` become the `Host` predicates `opens` and `toolboxOpens`, and the exact command lines are not modelled.
- `stdout`, `stderr` and console logging are not modelled. Neither are the strings the promises resolve with. A `Launch` records instead which method succeeded.
- Promises are not modelled: a request's result is a value.
- IdeLauncher.Dispatch: the source throws the unsupported-IDE error synchronously rather than rejecting a promise. The model returns it as a failed `Launch` with no launches.
- `path.normalize` is the `Host.normalize` parameter and its behaviour is not modelled. As in the source, `openInIDE` and `openInIntellij` each apply it, so IntelliJ sees the path normalized twice.
- Text.Lower: only ASCII `A`-`Z` are lowered, while JavaScript's `toLowerCase` also lowers non-ASCII letters. This does not change any dispatch or filter result. Only two non-ASCII characters lower-case to text that contains an ASCII letter: U+212A KELVIN SIGN becomes `k`, and U+0130 becomes `i` followed by U+0307. Neither can complete `vscode`, `vscodium`, `intellij` or `jetbrains`.
- FormUrlEncoded.Decode: the parser is strict and returns `None` on malformed UTF-8, where the Standard substitutes U+FFFD. It is only used as the partner of the serializer, whose output is always well formed.
- SearchParams.Set: JavaScript strings may hold lone surrogates, and the URL Standard's `set` takes USVString arguments, so it stores U+FFFD in place of each lone surrogate and `getAll(name)` then returns the replaced string, not `value`. A Dafny `char` cannot be a surrogate, so the clause `GetAll(r, name) == [value]` covers well-formed strings only.
- SearchParams.Append: for the same reason, `append` stores U+FFFD in place of a lone surrogate, so the clause that `getAll(name)` gains `value` covers well-formed strings only. The serializer therefore only ever sees scalar-value strings, as the model's `Utf8.Encode` assumes.
- `src/Configure.tsx` is not modelled: it is the form screen, with no logic of its own that the core depends on.
- The `IDE` type in the source lists three names, but `openInIDE` takes whatever string reaches it and lower-cases it. The model follows the code and takes any string.
- Line 128 of the source says group, artifact and version are sent "if provided", but `v` is sent unconditionally. The model follows the code.
