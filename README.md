# figma-font-helper: a verified model of the font provider and font-files routes

figma-font-helper is a small local HTTP server. The Figma web app queries it for the fonts
installed on the machine. This project models in Dafny the parts of the server that decide
what it answers:

- **The Linux font provider** (`src/provider/platform/linux.rs`):
  - fontconfig's numeric weights and widths are classified into buckets (`FcWeight`,
    `FcWidth`), and the buckets are mapped to the canonical `FontWeight`/`FontWidth`.
  - `get_all_fonts` walks an `FcFontSet` and applies the per-entry policy. A property that
    is not matched skips the entry, and so does a null path. A negative weight or width
    aborts the listing, and so does a path that is not UTF-8. Only `.ttf`/`.otf` paths are
    kept. For a kept path, an undecodable family, style or postscript name aborts the
    listing; for a dropped path it does not matter. A null family becomes `""`, a null style becomes the weight bucket's name, and a
    null postscript name becomes `family-style`.
  - `get_font_paths` collects the font directories.
  - `new`/`drop` manage the lifecycle of the three native handles.
- **The canonical types** (`src/provider/fontprovider.rs`): the weight and width enums, with
  the discriminants sent on the wire, and `FontDescriptor`.
- **The origin gate** (`src/middleware/allowonlyfigma.rs`):
  - the request host is the Origin header when present, otherwise the Referer;
  - a header that is not visible ASCII gives no host; an unreadable Origin does not fall
    back to the Referer;
  - only the exact text `https://www.figma.com` reaches the inner service;
  - everything else gets 403 "Forbidden".
- **The font-files handler** (`src/route/fontfiles.rs`): it groups the provider's
  descriptors by path into the JSON response, keeping listing order within each path.
- **The older font-files handler** (`src/routes/fontfiles.rs`):
  - it walks the font library's handles, loads each font and reads its properties;
  - it picks a postscript name by the fallback chain: the font's own name, then the SHA-256
    of its data, then `family_style`;
  - it labels the upright style "Regular";
  - it groups the faces by path.

Two loops share one model of their control flow, in module `Steps`. Each entry becomes
`Skip` (a `continue`), `Keep` (a push) or `Abort` (a `?`). `Collect` is the result of
running the loop: the first abort wins, otherwise the kept values come back in order. These
loops are `get_all_fonts` and the older handler. Both handlers' map-building loops are
proved against the grouping specification in module `Grouping`. `Faces(pairs, k)` is the
subsequence of values filed under `k`, and `Grouped(m, pairs)` says the map holds exactly
those lists.

The loops of the source are Dafny methods proved against these specification functions:
`GetAllFonts`, `GetFontPaths` and both `Handler`s. The per-entry decisions and the lifecycle
are functions, with lemmas stating the policy.

## Model

| member | source | states |
|---|---|---|
| FontProvider.WeightOrdinal | src/provider/fontprovider.rs:4-16 | every weight's wire value is a multiple of 50 between 100 and 950 |
| FontProvider.WidthOrdinal | src/provider/fontprovider.rs:18-29 | every width's wire value is a percentage between 50 and 200 |
| FontProvider.WeightFromOrdinal | src/provider/fontprovider.rs:4-16 | reading a wire weight back gives the variant with that discriminant, or none when no variant has it |
| FontProvider.WidthFromOrdinal | src/provider/fontprovider.rs:18-29 | reading a wire width back gives the variant with that discriminant, or none when no variant has it |
| FontProvider.WeightOrdinalsIncrease | src/provider/fontprovider.rs:4-16 | the ten weights, listed lightest first, cover the enum and have strictly increasing discriminants |
| FontProvider.WidthOrdinalsIncrease | src/provider/fontprovider.rs:18-29 | the nine widths, listed narrowest first, cover the enum and have strictly increasing discriminants |
| FontProvider.WeightOrdinalRoundTrip | src/provider/fontprovider.rs:4-16 | the wire weight identifies its variant |
| FontProvider.WidthOrdinalRoundTrip | src/provider/fontprovider.rs:18-29 | the wire width identifies its variant |
| PlatformLinux.FcWeightName | src/provider/platform/linux.rs:24-38 | a weight bucket prints as a non-empty name |
| PlatformLinux.FcWeightNameInjective | src/provider/platform/linux.rs:24-38 | distinct weight buckets print as distinct names |
| PlatformLinux.FcWeightTryFrom | src/provider/platform/linux.rs:340-363 | fails exactly on negative input, with `FontWeightMismatch(value)`; otherwise picks the bucket with the greatest discriminant not above the value |
| PlatformLinux.FcWidthTryFrom | src/provider/platform/linux.rs:383-404 | fails exactly on negative input, with `FontWidthMismatch(value)`; otherwise picks the greatest bucket not above the value, with UltraCondensed also taking 0 to 49 |
| PlatformLinux.WeightFrom | src/provider/platform/linux.rs:365-381 | the canonical weight is Normal exactly for Book and Regular |
| PlatformLinux.FcWeightMonotone | src/provider/platform/linux.rs:340-363 | a larger raw weight never lands in a lighter bucket |
| PlatformLinux.FcWidthMonotone | src/provider/platform/linux.rs:383-404 | a larger raw width never lands in a narrower bucket |
| PlatformLinux.WeightFromOrderAndCollisions | src/provider/platform/linux.rs:365-381 | the weight mapping keeps the order, and only Book and Regular collide |
| PlatformLinux.WidthFromOrderAndInjective | src/provider/platform/linux.rs:406-420 | the width mapping keeps the order in both directions and is one-to-one |
| PlatformLinux.WidthFrom | src/provider/platform/linux.rs:406-420 | each width goes on the wire as fontconfig's own value for it, except SemiCondensed, which is cut at 87 but sent as 88 |
| PlatformLinux.FcWeightValue | src/provider/platform/linux.rs:26-38 | the weight buckets' discriminants lie between 0 and 215 |
| PlatformLinux.FcWidthValue | src/provider/platform/linux.rs:41-51 | the width buckets' discriminants lie between 50 and 200 |
| PlatformLinux.WireWeightMonotone | src/provider/platform/linux.rs:248 | from raw value to wire number, a heavier weight never gives a smaller weight |
| PlatformLinux.WireWidthMonotone | src/provider/platform/linux.rs:249 | from raw value to wire number, a wider width never gives a smaller stretch |
| PlatformLinux.ToStr | src/provider/platform/linux.rs:250 | decoding a native string succeeds exactly when it is UTF-8, gives its text, and otherwise fails with `InvalidString` |
| PlatformLinux.EntryStepPolicy | src/provider/platform/linux.rs:217-285 | an entry is kept iff it is non-null, matches all seven properties, has a path, classifiable weight and width, a UTF-8 path with a `.ttf`/`.otf` extension, and decodable names. It aborts iff classification or path decoding fails, or the path is a font file and a name is undecodable; the weight error comes before the width error, which comes before `InvalidString`. A kept face takes its path and italic flag from the entry, and its null names from the family/weight-name/`family-style` fallbacks |
| PlatformLinux.DecodeOr | src/provider/platform/linux.rs:258-274 | a nullable name decodes iff it is null or UTF-8, then reads as its text or the fallback; otherwise it fails with `InvalidString` |
| PlatformLinux.EntryStep | src/provider/platform/linux.rs:221-285 | an entry that is kept or aborts got past the lookups and the null-path check, and a kept face has a `.ttf`/`.otf` path |
| PlatformLinux.AbortEndsEnumeration | src/provider/platform/linux.rs:248-273 | an aborting entry after a clean prefix ends the listing with that entry's error |
| PlatformLinux.ProcessEntry | src/provider/platform/linux.rs:221-285 | the loop body, with its `continue`s and `?`s, computes the entry's step |
| PlatformLinux.GetAllFonts | src/provider/platform/linux.rs:208-291 | a null font set is `FontListEmpty("FcFontList failed")`; otherwise the result is the fold of the entries' steps |
| PlatformLinux.GetAllFontsOutcome | src/provider/platform/linux.rs:208-291 | the listing succeeds iff no entry aborts. Then every descriptor is a font file kept from some entry; a failure carries the first aborting entry's error |
| PlatformLinux.ArialPathIsFontFile | src/provider/platform/linux.rs:252-256 | `/fonts/Arial.ttf` passes the extension filter |
| PlatformLinux.ReadmeIsNotFontFile | src/provider/platform/linux.rs:252-256 | `/fonts/readme.txt` is dropped by the extension filter |
| PlatformLinux.RegularFaceExample | src/provider/platform/linux.rs:258-284 | weight 80, width 100, slant 0 with null style and postscript name give an upright Normal/Normal face styled "Regular" named "Arial-Regular" |
| PlatformLinux.AbortPrecedesExtensionFilter | src/provider/platform/linux.rs:248-256 | a negative weight aborts the listing even on a path the extension filter would drop, discarding a good face listed before it |
| PlatformLinux.FirstNull | src/provider/platform/linux.rs:303-307 | iteration stops at the first null string or at the end of the list |
| PlatformLinux.GetFontPaths | src/provider/platform/linux.rs:293-315 | a null list is `FontDirsEmpty("FcConfigGetFontDirs failed")`. Otherwise it succeeds iff every string before the first null decodes, and returns exactly those texts in order; any failure is `InvalidString` |
| PlatformLinux.New | src/provider/platform/linux.rs:167-201 | succeeds iff all three handles are non-null and then holds exactly them; any failure is an `Initialization` error |
| PlatformLinux.Acquired | src/provider/platform/linux.rs:167-194 | the live handles `new` holds when it returns are the prefix of config, pattern, object set that stops at the first null handle; all three iff `new` succeeds |
| PlatformLinux.Drop | src/provider/platform/linux.rs:318-338 | destroys exactly the non-null handles, each with its own destructor, in the order pattern, object set, config |
| PlatformLinux.NewThenDropReleasesAll | src/provider/platform/linux.rs:318-338 | after a successful `new`, `drop` releases each acquired handle exactly once (as multisets) |
| PlatformLinux.FailedNewKeepsConfig | src/provider/platform/linux.rs:175-178 | when the pattern cannot be created, `new` fails with "FcPatternCreate failed" while holding a config that nothing destroys |
| PathExtension.Split | src/provider/platform/linux.rs:161-163 | a path splits at `/` into at least one piece, none containing `/` |
| PathExtension.SplitJoin | src/provider/platform/linux.rs:161-163 | joining the pieces with `/` gives back the path |
| PathExtension.LastNormal | src/provider/platform/linux.rs:161-163 | the file name is a piece of the path that is not empty, `.` or `..` |
| PathExtension.FileName | src/provider/platform/linux.rs:161-163 | a path's file name has no `/` and is not empty, `.` or `..` |
| PathExtension.LastDot | src/provider/platform/linux.rs:161-163 | finds the position of the last dot, or reports that there is none |
| PathExtension.NameExtension | src/provider/platform/linux.rs:161-163 | a file name's extension contains no dot |
| PathExtension.GetExtension | src/provider/platform/linux.rs:161-163 | an extension contains neither `.` nor `/` |
| PathExtension.SplitNoSeparator | src/provider/platform/linux.rs:161-163 | a name without `/` is a single piece |
| PathExtension.SplitAppendName | src/provider/platform/linux.rs:161-163 | appending `/name` appends one piece |
| PathExtension.FileNameOfChild | src/provider/platform/linux.rs:161-163 | the file name of `dir/name` is `name` |
| PathExtension.ExtensionOfChild | src/provider/platform/linux.rs:161-163 | the extension of `dir/stem.ext` is `ext` whenever the stem is not empty (and not `.` with an empty extension) |
| PathExtension.NoDotNoExtension | src/provider/platform/linux.rs:161-163 | a file name `dir/name` without any dot has no extension |
| PathExtension.DotFileHasNoExtension | src/provider/platform/linux.rs:161-163 | a hidden file `dir/.ext` has no extension |
| AllowFigmaOnly.HeaderToStr | src/middleware/allowonlyfigma.rs:46-52 | a header reads as text exactly when every character is visible ASCII or tab, and then reads as itself |
| AllowFigmaOnly.RequestHost | src/middleware/allowonlyfigma.rs:45-53 | the host is absent iff there is no Origin and no Referer, or the header consulted is unreadable; otherwise it is Origin when present, else Referer |
| AllowFigmaOnly.Call | src/middleware/allowonlyfigma.rs:44-59 | a forwarded request is passed on unchanged; a refusal is 403 "Forbidden" |
| AllowFigmaOnly.CallAdmitsExactly | src/middleware/allowonlyfigma.rs:44-59 | the gate forwards exactly the requests whose Origin, or else Referer, reads as `https://www.figma.com` |
| AllowFigmaOnly.FigmaOriginReadable | src/middleware/allowonlyfigma.rs:55 | the allowed origin is itself a readable header value |
| AllowFigmaOnly.NoHeadersDenied | src/middleware/allowonlyfigma.rs:50-52 | a request with neither header is refused |
| AllowFigmaOnly.FigmaOriginAllowed | src/middleware/allowonlyfigma.rs:46-56 | an allowed Origin is forwarded whatever the Referer says |
| AllowFigmaOnly.UnreadableOriginDenied | src/middleware/allowonlyfigma.rs:46-47 | an Origin present but unreadable refuses the request without consulting Referer |
| AllowFigmaOnly.RefererWithPathDenied | src/middleware/allowonlyfigma.rs:48-55 | a Referer naming a page under the allowed origin does not match and is refused |
| Steps.Collect | src/provider/platform/linux.rs:217-290 | a successful fold keeps at most one value per step |
| Steps.KeptAppend | src/provider/platform/linux.rs:276 | the kept values of a concatenation are the concatenation of the kept values |
| Steps.CollectSticky | src/provider/platform/linux.rs:248 | once a prefix has aborted, later entries change nothing |
| Steps.CollectSucceeds | src/provider/platform/linux.rs:217-290 | the fold succeeds iff no step aborts, and then yields the kept values in order |
| Steps.CollectFirstAbort | src/provider/platform/linux.rs:248-273 | a failed fold reports the error of the first aborting step |
| Steps.KeptOrigin | src/provider/platform/linux.rs:276-284 | every kept value comes from a `Keep` step |
| Steps.CollectAbortAt | src/routes/fontfiles.rs:41-47 | an aborting step after a clean prefix ends the fold with its error |
| Grouping.Faces | src/route/fontfiles.rs:37-41 | a key's list is no longer than the input |
| Grouping.DistinctKeys | src/route/fontfiles.rs:37-41 | lists each key of the input exactly once |
| Grouping.FacesAppend | src/route/fontfiles.rs:37-41 | grouping distributes over concatenation |
| Grouping.FacesNonEmpty | src/route/fontfiles.rs:37-41 | a key's list is non-empty iff the key occurs in the input |
| Grouping.FaceAtRank | src/route/fontfiles.rs:37-41 | each pair's value sits in its key's list at its rank |
| Grouping.RankOrder | src/route/fontfiles.rs:37-41 | of two pairs with one key, the earlier has the smaller rank |
| Grouping.FaceOrigin | src/route/fontfiles.rs:37-41 | every listed value is the value of some pair with that key |
| Grouping.SumFacesStep | src/route/fontfiles.rs:37-41 | appending a pair adds one to the total over a key list iff that list holds its key |
| Grouping.TotalFaces | src/route/fontfiles.rs:37-41 | the list lengths over the distinct keys add up to the number of pairs |
| Grouping.GroupStep | src/routes/fontfiles.rs:79-83 | pushing onto an existing key's list, or inserting a one-element list, keeps the map grouped after appending the pair |
| RouteFontFiles.ToDto | src/route/fontfiles.rs:28-35 | the JSON face copies names and italic flag, and its weight and stretch numbers read back as the descriptor's weight and width |
| RouteFontFiles.Handler | src/route/fontfiles.rs:18-44 | a provider failure becomes `FontLoading`; otherwise the version is the configured protocol version and the map is exactly the faces grouped by path |
| RouteFontFiles.EveryFaceListed | src/route/fontfiles.rs:37-41 | every descriptor's face is in its path's list, at its rank |
| RouteFontFiles.ListingOrderKept | src/route/fontfiles.rs:37-41 | faces of one file keep their listing order |
| RouteFontFiles.ListedFaceOrigin | src/route/fontfiles.rs:37-41 | every listed face is the face of a descriptor with that path |
| RouteFontFiles.ListLengthsAddUp | src/route/fontfiles.rs:37-41 | no list is empty, the keys are exactly the distinct paths, and the lengths add up to the number of descriptors |
| RouteFontFiles.ResponseCarriesWireOrdinals | src/route/fontfiles.rs:32-33 | every face in a response carries one of the canonical weight and stretch numbers |
| RouteFontFiles.TwoFacesOneFile | src/route/fontfiles.rs:37-41 | two faces of one file give one key whose list holds both, in order |
| RoutesFontFiles.ConvertStyle | src/routes/fontfiles.rs:90-97 | the label is "Regular" exactly for the upright style, and the style's display text otherwise |
| RoutesFontFiles.ConvertStyleInjective | src/routes/fontfiles.rs:90-97 | distinct styles get distinct labels |
| RoutesFontFiles.HandleStepPolicy | src/routes/fontfiles.rs:37-83 | a handle is kept iff it is a UTF-8 path that loads and whose properties can be read. A non-UTF-8 path panics; a load failure aborts with `FontLoading`. A kept face is filed under its path, labelled by `ConvertStyle`, italic iff the style is not Normal, and named by its postscript name, else the digest of its data, else `family_style` |
| RoutesFontFiles.Postscript | src/routes/fontfiles.rs:58-68 | the postscript name is the font's own, else the digest of its data, else `family_style`, which ends in `_Regular` exactly for the upright style |
| RoutesFontFiles.HandleStep | src/routes/fontfiles.rs:40-83 | an in-memory handle is skipped, a kept face is filed under its UTF-8 path, and the step panics exactly on a path that is not UTF-8 |
| RoutesFontFiles.Handler | src/routes/fontfiles.rs:28-86 | a failed listing is `FontSelection`. Otherwise the request succeeds iff the fold of the steps does, stops with the same outcome when it does not, and answers the protocol version with the faces grouped by path |
| RoutesFontFiles.HandlerOutcome | src/routes/fontfiles.rs:37-84 | the request succeeds iff no handle is a non-UTF-8 path or fails to load. Every face then comes from a kept handle, and a failure comes from an aborting handle |

## Left out

- fontconfig and the font library are foreign code. Their calls are inputs:
  - `FcFontList` and `FcPatternGet*` become a `FontSet` of `Pattern`s with per-property
    `Lookup`s;
  - `FcStrListNext` becomes a `StrList`;
  - the three constructors of `new` become an `Acquisition`;
  - `SystemSource::all_fonts`, `Handle::load` and the font accessors become `FontHandle`
    and `LoadedFont` values.
- `FcFontSetDestroy` (after the listing) and `FcStrListDone` (after the directories) are
  not modelled. Like the early returns through `?`, which skip them, they only release
  memory.
- `FcConfigEnableHome(1)`, called at the end of `new`, is not modelled: its effect lies
  inside fontconfig.
- `get_api_version` returns the constant 35 and is not modelled.
- Rust paths are modelled as strings. `get_extension_from_filename` follows
  `Path::extension`:
  - the last normal component is the file name, ignoring `.`, empty components and
    trailing slashes, with `..` giving none;
  - the extension is what follows its last dot, unless that dot is the first character.

  `OsStr::to_str` never fails on a path that is already a Rust string.
- RouteFontFiles.Handler: keys its map by the path text, where the source's
  `HashMap<PathBuf, _>` compares paths component by component. In the source, spellings such as
  `dir/a.ttf`, `dir//a.ttf`, `dir/./a.ttf` and `dir/a.ttf/` share one key (the first spelling
  seen) and one list; in the model they are separate keys. This does not matter for
  fontconfig's canonical file paths. The older handler's keys are `String`s and compare as
  text, as modelled.
- PlatformLinux.EntryStepPolicy: follows the code as written, in which an answer other than
  `Match` from `FcPatternGet*` skips the entry. In the source, `FcResult` has the single variant
  `Match`, so any other answer is undefined behaviour in Rust, and the derived comparison is
  always true. In practice a missing property does not skip the entry: its out-parameter keeps
  its initial null or 0. That is the only way the null-name fallbacks (empty family, weight
  name for style, `family-style` for postscript name) are reached, since fontconfig never
  answers `Match` with a null string. The model reaches those fallbacks only through
  `Match` with a null string.
- `PlatformLinux.New`:
  - on failure it does not destroy the handles acquired earlier. The model records that
    (`Acquired`, `FailedNewKeepsConfig`) and does not claim that they are released.
  - `Drop` destroys pattern, object set, then config, which is not the reverse of the
    acquisition order. The model states the order the code uses.
- `RoutesFontFiles.Handler`:
  - the weight and stretch floats are taken as already rounded naturals. Float rounding,
    the `as usize` saturation and the `* 1.0` factor are not modelled.
  - the SHA-256 hex digest is a function parameter (`digest`), not an implementation of
    SHA-256.
  - a panic inside `properties()` is caught by the source. It is modelled as a font whose
    properties are absent, which is skipped.
  - the `unwrap` on a non-UTF-8 path is modelled as the `Panic` outcome.
  - log output is left out.
- `RoutesFontFiles.StyleName` assumes the font library prints a style as its variant name
  (`Normal`, `Italic`, `Oblique`). The font library is not part of this model.
- The HTTP framework is left out: routing, JSON serialisation, the inner service behind
  the origin gate, and the futures. The gate's outcome is `CallInner(request)` or
  `Denied(403, "Forbidden")`.
- There is no font database snapshot, and no path check on single-file requests, anywhere
  in these files. `src/route/fontfile.rs`, `src/route/update.rs`, `main.rs` and the
  version routes are not part of this model.
