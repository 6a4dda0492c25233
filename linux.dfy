/**
 * The fontconfig-backed font enumerator. The native library is not modelled:
 * what its calls return is given as input (the entries of the listed font set,
 * the font directory list, the handles its constructors hand out), and what
 * the enumerator does with those answers is modelled exactly.
 */
module PlatformLinux {
  import opened Wrappers
  import opened Steps
  import FontProvider
  import PathExtension

  /** C `int`, the type of fontconfig's integer attributes. */
  newtype int32 = x: int | -0x8000_0000 <= x < 0x8000_0000

  /** `PlatformFontProviderErr`. The decoding detail InvalidString carries is not modelled. */
  datatype ProviderError =
    | Initialization(message: string)
    | FontListEmpty(message: string)
    | FontWeightMismatch(weight: int32)
    | FontWidthMismatch(width: int32)
    | FontDirsEmpty(message: string)
    | InvalidString

  /** fontconfig's slant value for italic faces. */
  const FcSlantItalic: int32 := 100

  // ---------------------------------------------------------------------------
  // Weight and width classification

  /** fontconfig's named weights. */
  datatype FcWeight =
    | Thin | ExtraLight | Light | Book | Regular | Medium
    | DemiBold | Bold | ExtraBold | Black | ExtraBlack

  /** fontconfig's named widths. */
  datatype FcWidth =
    | UltraCondensed | ExtraCondensed | Condensed | SemiCondensed | Normal
    | SemiExpanded | Expanded | ExtraExpanded | UltraExpanded

  /** The discriminant of each weight: fontconfig's value for it, and the bucket's lower cut point. */
  function FcWeightValue(w: FcWeight): (v: int32)
    ensures 0 <= v <= 215
  {
    match w
    case Thin => 0
    case ExtraLight => 40
    case Light => 50
    case Book => 75
    case Regular => 80
    case Medium => 100
    case DemiBold => 180
    case Bold => 200
    case ExtraBold => 205
    case Black => 210
    case ExtraBlack => 215
  }

  /** The discriminant of each width: fontconfig's value for it. */
  function FcWidthValue(w: FcWidth): (v: int32)
    ensures 50 <= v <= 200
  {
    match w
    case UltraCondensed => 50
    case ExtraCondensed => 63
    case Condensed => 75
    case SemiCondensed => 87
    case Normal => 100
    case SemiExpanded => 113
    case Expanded => 125
    case ExtraExpanded => 150
    case UltraExpanded => 200
  }

  /** The display text of a weight (the variant's name). */
  function FcWeightName(w: FcWeight): (s: string)
    ensures s != ""
  {
    match w
    case Thin => "Thin"
    case ExtraLight => "ExtraLight"
    case Light => "Light"
    case Book => "Book"
    case Regular => "Regular"
    case Medium => "Medium"
    case DemiBold => "DemiBold"
    case Bold => "Bold"
    case ExtraBold => "ExtraBold"
    case Black => "Black"
    case ExtraBlack => "ExtraBlack"
  }

  /** Distinct weight buckets print differently, so a style derived from the weight names its bucket. */
  lemma FcWeightNameInjective(a: FcWeight, b: FcWeight)
    ensures FcWeightName(a) == FcWeightName(b) <==> a == b
  {
  }

  /**
   * `FcWeight::try_from`: negative weights are an error; any other weight
   * falls in the bucket with the greatest discriminant not above it.
   */
  function FcWeightTryFrom(value: int32): (r: Result<FcWeight, ProviderError>)
    ensures r.Failure? <==> value < 0
    ensures r.Failure? ==> r.error == FontWeightMismatch(value)
    ensures r.Success? ==> FcWeightValue(r.value) <= value
    ensures r.Success? ==> forall w :: FcWeightValue(w) <= value ==> FcWeightValue(w) <= FcWeightValue(r.value)
  {
    if 0 <= value <= 39 then Success(Thin)
    else if 40 <= value <= 49 then Success(ExtraLight)
    else if 50 <= value <= 74 then Success(Light)
    else if 75 <= value <= 79 then Success(Book)
    else if 80 <= value <= 99 then Success(Regular)
    else if 100 <= value <= 179 then Success(Medium)
    else if 180 <= value <= 199 then Success(DemiBold)
    else if 200 <= value <= 204 then Success(Bold)
    else if 205 <= value <= 209 then Success(ExtraBold)
    else if 210 <= value <= 214 then Success(Black)
    else if value >= 215 then Success(ExtraBlack)
    else Failure(FontWeightMismatch(value))
  }

  /**
   * `FcWidth::try_from`: negative widths are an error; any other width falls
   * in the bucket with the greatest discriminant not above it, except that
   * UltraCondensed (discriminant 50) also takes the widths 0 to 49.
   */
  function FcWidthTryFrom(value: int32): (r: Result<FcWidth, ProviderError>)
    ensures r.Failure? <==> value < 0
    ensures r.Failure? ==> r.error == FontWidthMismatch(value)
    ensures r.Success? ==> FcWidthValue(r.value) <= value || r.value == UltraCondensed
    ensures r.Success? ==> forall w :: FcWidthValue(w) <= value ==> FcWidthValue(w) <= FcWidthValue(r.value)
  {
    if 0 <= value <= 62 then Success(UltraCondensed)
    else if 63 <= value <= 74 then Success(ExtraCondensed)
    else if 75 <= value <= 86 then Success(Condensed)
    else if 87 <= value <= 99 then Success(SemiCondensed)
    else if 100 <= value <= 112 then Success(Normal)
    else if 113 <= value <= 124 then Success(SemiExpanded)
    else if 125 <= value <= 149 then Success(Expanded)
    else if 150 <= value <= 199 then Success(ExtraExpanded)
    else if value >= 200 then Success(UltraExpanded)
    else Failure(FontWidthMismatch(value))
  }

  /** `From<FcWeight> for FontWeight`: Book and Regular both become Normal. */
  function WeightFrom(w: FcWeight): (r: FontProvider.FontWeight)
    ensures r == FontProvider.FontWeight.Normal <==> w == Book || w == Regular
  {
    match w
    case Thin => FontProvider.Thin
    case ExtraLight => FontProvider.ExtraLight
    case Light => FontProvider.Light
    case Book => FontProvider.FontWeight.Normal
    case Regular => FontProvider.FontWeight.Normal
    case Medium => FontProvider.Medium
    case DemiBold => FontProvider.SemiBold
    case Bold => FontProvider.Bold
    case ExtraBold => FontProvider.ExtraBold
    case Black => FontProvider.Black
    case ExtraBlack => FontProvider.ExtraBlack
  }

  /**
   * `From<FcWidth> for FontWidth`: variant for variant. Every width goes on
   * the wire as fontconfig's own value for it, except SemiCondensed: its cut
   * point is 87 but its wire value is 88.
   */
  function WidthFrom(w: FcWidth): (r: FontProvider.FontWidth)
    ensures FontProvider.WidthOrdinal(r) as int == FcWidthValue(w) as int + (if w == SemiCondensed then 1 else 0)
  {
    match w
    case UltraCondensed => FontProvider.UltraCondensed
    case ExtraCondensed => FontProvider.ExtraCondensed
    case Condensed => FontProvider.Condensed
    case SemiCondensed => FontProvider.SemiCondensed
    case Normal => FontProvider.FontWidth.Normal
    case SemiExpanded => FontProvider.SemiExpanded
    case Expanded => FontProvider.Expanded
    case ExtraExpanded => FontProvider.ExtraExpanded
    case UltraExpanded => FontProvider.UltraExpanded
  }

  /** A larger raw weight never lands in a lighter bucket. */
  lemma FcWeightMonotone(a: int32, b: int32)
    requires 0 <= a <= b
    ensures FcWeightValue(FcWeightTryFrom(a).value) <= FcWeightValue(FcWeightTryFrom(b).value)
  {
  }

  /** A larger raw width never lands in a narrower bucket. */
  lemma FcWidthMonotone(a: int32, b: int32)
    requires 0 <= a <= b
    ensures FcWidthValue(FcWidthTryFrom(a).value) <= FcWidthValue(FcWidthTryFrom(b).value)
  {
  }

  /** Mapping to the canonical weight keeps the order and merges only Book with Regular. */
  lemma WeightFromOrderAndCollisions(a: FcWeight, b: FcWeight)
    ensures FcWeightValue(a) <= FcWeightValue(b) ==>
              FontProvider.WeightOrdinal(WeightFrom(a)) <= FontProvider.WeightOrdinal(WeightFrom(b))
    ensures WeightFrom(a) == WeightFrom(b) <==> a == b || {a, b} == {Book, Regular}
  {
  }

  /** Mapping to the canonical width keeps the order and is one-to-one. */
  lemma WidthFromOrderAndInjective(a: FcWidth, b: FcWidth)
    ensures FcWidthValue(a) <= FcWidthValue(b) <==>
              FontProvider.WidthOrdinal(WidthFrom(a)) <= FontProvider.WidthOrdinal(WidthFrom(b))
    ensures WidthFrom(a) == WidthFrom(b) <==> a == b
  {
  }

  /** End to end: a heavier raw weight never yields a smaller wire weight. */
  lemma WireWeightMonotone(a: int32, b: int32)
    requires 0 <= a <= b
    ensures FontProvider.WeightOrdinal(WeightFrom(FcWeightTryFrom(a).value))
            <= FontProvider.WeightOrdinal(WeightFrom(FcWeightTryFrom(b).value))
  {
    FcWeightMonotone(a, b);
    WeightFromOrderAndCollisions(FcWeightTryFrom(a).value, FcWeightTryFrom(b).value);
  }

  /** End to end: a wider raw width never yields a smaller wire stretch. */
  lemma WireWidthMonotone(a: int32, b: int32)
    requires 0 <= a <= b
    ensures FontProvider.WidthOrdinal(WidthFrom(FcWidthTryFrom(a).value))
            <= FontProvider.WidthOrdinal(WidthFrom(FcWidthTryFrom(b).value))
  {
    FcWidthMonotone(a, b);
    WidthFromOrderAndInjective(FcWidthTryFrom(a).value, FcWidthTryFrom(b).value);
  }

  // ---------------------------------------------------------------------------
  // One entry of the listed font set

  /** A string a lookup returned: a null pointer, or text whose bytes may or may not be valid UTF-8. */
  datatype NativeString = NullString | CString(text: string, utf8: bool)

  /** The outcome of an `FcPatternGet*` lookup: `Match` with the value, or any other result. */
  datatype Lookup<+T> = NoMatch | Match(value: T)

  /** One font pattern of the listed set, as seen through its seven lookups. */
  datatype Pattern = Pattern(
    file: Lookup<NativeString>,
    family: Lookup<NativeString>,
    style: Lookup<NativeString>,
    postscriptName: Lookup<NativeString>,
    weight: Lookup<int32>,
    width: Lookup<int32>,
    slant: Lookup<int32>)

  /** What `FcFontList` returns: a null set, or the patterns, where `None` is a null pattern pointer. */
  datatype FontSet = NullFontSet | FontSet(fonts: seq<Option<Pattern>>)

  predicate AllMatch(p: Pattern)
  {
    p.file.Match? && p.family.Match? && p.style.Match? && p.postscriptName.Match?
    && p.weight.Match? && p.width.Match? && p.slant.Match?
  }

  /** `CStr::to_str` on a non-null string. */
  function ToStr(s: NativeString): (r: Result<string, ProviderError>)
    requires s.CString?
    ensures r.Success? <==> s.utf8
    ensures r.Success? ==> r.value == s.text
    ensures r.Failure? ==> r.error == InvalidString
  {
    if s.utf8 then Success(s.text) else Failure(InvalidString)
  }

  /** A nullable string field: the fallback when null, the decoded text otherwise. */
  function DecodeOr(s: NativeString, fallback: string): (r: Result<string, ProviderError>)
    ensures r.Success? <==> Decodable(s)
    ensures r.Success? ==> r.value == TextOr(s, fallback)
    ensures r.Failure? ==> r.error == InvalidString
  {
    if s.NullString? then Success(fallback) else ToStr(s)
  }

  predicate Decodable(s: NativeString)
  {
    s.NullString? || s.utf8
  }

  function TextOr(s: NativeString, fallback: string): string
  {
    if s.NullString? then fallback else s.text
  }

  /** The path's extension is exactly "ttf" or "otf" (case matters). */
  predicate IsFontFile(path: string)
  {
    var ext := PathExtension.GetExtension(path);
    ext == Some("ttf") || ext == Some("otf")
  }

  /** The entry gets past the lookups and the null-path check. */
  predicate Considered(p: Option<Pattern>)
  {
    p.Some? && AllMatch(p.value) && p.value.file.value.CString?
  }

  /** Weight and width classify and the path decodes: the checks made before the extension filter. */
  predicate Classifiable(p: Pattern)
    requires AllMatch(p) && p.file.value.CString?
  {
    p.weight.value >= 0 && p.width.value >= 0 && p.file.value.utf8
  }

  predicate NamesDecodable(p: Pattern)
    requires AllMatch(p)
  {
    Decodable(p.family.value) && Decodable(p.style.value) && Decodable(p.postscriptName.value)
  }

  /**
   * What one iteration of the `get_all_fonts` loop does with one entry: skip
   * it, keep one descriptor, or abort the whole call.
   */
  function EntryStep(p: Option<Pattern>): (r: Step<FontProvider.FontDescriptor, ProviderError>)
    ensures r.Keep? ==> Considered(p) && IsFontFile(r.value.path)
    ensures r.Abort? ==> Considered(p)
  {
    if p.None? || !AllMatch(p.value) || p.value.file.value.NullString? then Skip
    else
      var e := p.value;
      match FcWeightTryFrom(e.weight.value)
      case Failure(err) => Abort(err)
      case Success(weight) =>
        match FcWidthTryFrom(e.width.value)
        case Failure(err) => Abort(err)
        case Success(width) =>
          match ToStr(e.file.value)
          case Failure(err) => Abort(err)
          case Success(path) =>
            if !IsFontFile(path) then Skip
            else
              match DecodeOr(e.family.value, "")
              case Failure(err) => Abort(err)
              case Success(family) =>
                match DecodeOr(e.style.value, FcWeightName(weight))
                case Failure(err) => Abort(err)
                case Success(style) =>
                  match DecodeOr(e.postscriptName.value, family + "-" + style)
                  case Failure(err) => Abort(err)
                  case Success(postscript) =>
                    Keep(FontProvider.FontDescriptor(
                      path, postscript, family, style, WeightFrom(weight), WidthFrom(width),
                      e.slant.value == FcSlantItalic))
  }

  /**
   * The per-entry policy. An entry is kept exactly when all seven lookups
   * match, its path is non-null, decodes and has a font extension, its
   * weight and width classify, and its names decode. Classification and path
   * decoding happen before the extension filter, so their failures abort the
   * call even for entries the filter would drop; name decoding failures abort
   * only for entries past the filter. Missing names fall back as listed.
   */
  lemma EntryStepPolicy(p: Option<Pattern>)
    ensures EntryStep(p).Keep? <==>
              Considered(p) && Classifiable(p.value) && IsFontFile(p.value.file.value.text)
              && NamesDecodable(p.value)
    ensures EntryStep(p).Abort? <==>
              Considered(p)
              && (!Classifiable(p.value) || (IsFontFile(p.value.file.value.text) && !NamesDecodable(p.value)))
    ensures EntryStep(p).Abort? && p.value.weight.value < 0 ==> EntryStep(p).error == FontWeightMismatch(p.value.weight.value)
    ensures EntryStep(p).Abort? && p.value.weight.value >= 0 && p.value.width.value < 0 ==>
              EntryStep(p).error == FontWidthMismatch(p.value.width.value)
    ensures EntryStep(p).Abort? && p.value.weight.value >= 0 && p.value.width.value >= 0 ==> EntryStep(p).error == InvalidString
    ensures EntryStep(p).Keep? ==>
              var e, d := p.value, EntryStep(p).value;
              var bucket := FcWeightTryFrom(e.weight.value).value;
              && d.path == e.file.value.text
              && d.family == TextOr(e.family.value, "")
              && d.style == TextOr(e.style.value, FcWeightName(bucket))
              && d.postscript == TextOr(e.postscriptName.value, d.family + "-" + d.style)
              && d.weight == WeightFrom(bucket)
              && d.width == WidthFrom(FcWidthTryFrom(e.width.value).value)
              && (d.italic <==> e.slant.value == FcSlantItalic)
  {
  }

  /** The step of each entry, in native order. */
  function EntrySteps(ps: seq<Option<Pattern>>): (r: seq<Step<FontProvider.FontDescriptor, ProviderError>>)
    ensures |r| == |ps| && forall i :: 0 <= i < |ps| ==> r[i] == EntryStep(ps[i])
  {
    seq(|ps|, i requires 0 <= i < |ps| => EntryStep(ps[i]))
  }

  lemma AbortEndsEnumeration(ps: seq<Option<Pattern>>, i: nat, e: ProviderError)
    requires i < |ps| && Collect(EntrySteps(ps[..i])).Success? && EntryStep(ps[i]) == Abort(e)
    ensures Collect(EntrySteps(ps)) == Failure(e)
  {
    var steps := EntrySteps(ps);
    assert steps[..i] == EntrySteps(ps[..i]);
    CollectAbortAt(steps, i);
  }

  /**
   * The body of the `get_all_fonts` loop for one entry: the `continue`s
   * become `Skip`, the `?`s become `Abort`, the push becomes `Keep`.
   */
  method ProcessEntry(entry: Option<Pattern>) returns (s: Step<FontProvider.FontDescriptor, ProviderError>)
    ensures s == EntryStep(entry)
  {
    if entry.None? || !AllMatch(entry.value) {
      return Skip;
    }
    var pattern := entry.value;
    if pattern.file.value.NullString? {
      return Skip;
    }
    var weight := FcWeightTryFrom(pattern.weight.value);
    if weight.Failure? {
      return Abort(weight.error);
    }
    var width := FcWidthTryFrom(pattern.width.value);
    if width.Failure? {
      return Abort(width.error);
    }
    var path := ToStr(pattern.file.value);
    if path.Failure? {
      return Abort(path.error);
    }
    if !IsFontFile(path.value) {
      return Skip;
    }
    var family := DecodeOr(pattern.family.value, "");
    if family.Failure? {
      return Abort(family.error);
    }
    var style := DecodeOr(pattern.style.value, FcWeightName(weight.value));
    if style.Failure? {
      return Abort(style.error);
    }
    var postscript := DecodeOr(pattern.postscriptName.value, family.value + "-" + style.value);
    if postscript.Failure? {
      return Abort(postscript.error);
    }
    return Keep(FontProvider.FontDescriptor(
      path.value, postscript.value, family.value, style.value,
      WeightFrom(weight.value), WidthFrom(width.value),
      pattern.slant.value == FcSlantItalic));
  }

  /**
   * `get_all_fonts`: walks the listed set once, in native order, pushing one
   * descriptor per kept entry and returning early on the first
   * classification or decoding error.
   */
  method GetAllFonts(fontSet: FontSet) returns (r: Result<seq<FontProvider.FontDescriptor>, ProviderError>)
    ensures fontSet.NullFontSet? ==> r == Failure(FontListEmpty("FcFontList failed"))
    ensures fontSet.FontSet? ==> r == Collect(EntrySteps(fontSet.fonts))
  {
    if fontSet.NullFontSet? {
      return Failure(FontListEmpty("FcFontList failed"));
    }
    var ps := fontSet.fonts;
    var fonts: seq<FontProvider.FontDescriptor> := [];
    for i := 0 to |ps|
      invariant Collect(EntrySteps(ps[..i])) == Success(fonts)
    {
      var step := ProcessEntry(ps[i]);
      ghost var steps := EntrySteps(ps[..i + 1]);
      assert steps[..i] == EntrySteps(ps[..i]) && steps[i] == step;
      match step
      case Skip =>
      case Keep(descriptor) =>
        fonts := fonts + [descriptor];
      case Abort(e) =>
        AbortEndsEnumeration(ps, i, e);
        return Failure(e);
    }
    assert ps[..|ps|] == ps;
    return Success(fonts);
  }

  /**
   * The listing succeeds exactly when no entry aborts; then every descriptor
   * comes from a kept entry, so every path has a font extension. A failed
   * listing reports the error of the first aborting entry.
   */
  lemma GetAllFontsOutcome(ps: seq<Option<Pattern>>)
    ensures Collect(EntrySteps(ps)).Success? <==> forall i :: 0 <= i < |ps| ==> !EntryStep(ps[i]).Abort?
    ensures Collect(EntrySteps(ps)).Success? ==>
              forall n :: 0 <= n < |Collect(EntrySteps(ps)).value| ==>
                var d := Collect(EntrySteps(ps)).value[n];
                IsFontFile(d.path) && exists i :: 0 <= i < |ps| && EntryStep(ps[i]) == Keep(d)
    ensures Collect(EntrySteps(ps)).Failure? ==>
              exists i :: 0 <= i < |ps| && EntryStep(ps[i]) == Abort(Collect(EntrySteps(ps)).error)
                          && forall j :: 0 <= j < i ==> !EntryStep(ps[j]).Abort?
  {
    var steps := EntrySteps(ps);
    CollectSucceeds(steps);
    if Collect(steps).Success? {
      forall n | 0 <= n < |Collect(steps).value|
        ensures var d := Collect(steps).value[n];
                IsFontFile(d.path) && exists i :: 0 <= i < |ps| && EntryStep(ps[i]) == Keep(d)
      {
        KeptOrigin(steps, n);
        var i :| 0 <= i < |steps| && steps[i] == Keep(Kept(steps)[n]);
        EntryStepPolicy(ps[i]);
      }
    } else {
      CollectFirstAbort(steps);
      var i :| 0 <= i < |steps| && steps[i].Abort? && NoAbort(steps[..i])
               && Collect(steps).error == steps[i].error;
      forall j | 0 <= j < i ensures !EntryStep(ps[j]).Abort? {
        assert steps[..i][j] == steps[j];
      }
    }
  }

  /** The path of the example face. */
  const ArialPath := "/fonts/Arial.ttf"

  lemma ArialPathIsFontFile()
    ensures IsFontFile(ArialPath)
  {
    PathExtension.ExtensionOfChild("/fonts", "Arial", "ttf");
    assert "/fonts" + "/" + "Arial" + "." + "ttf" == ArialPath;
  }

  /** An entry with all names present except style and postscript name. */
  function FaceEntry(path: string, family: string, weight: int32, width: int32, slant: int32): Option<Pattern>
  {
    Some(Pattern(Match(CString(path, true)), Match(CString(family, true)), Match(NullString),
                 Match(NullString), Match(weight), Match(width), Match(slant)))
  }

  /**
   * Weight 80, width 100 and slant 0 give a Normal, Normal, upright face; the
   * missing style becomes "Regular" and the missing postscript name
   * "<family>-Regular". `ArialPathIsFontFile` supplies the precondition for
   * "/fonts/Arial.ttf".
   */
  lemma RegularFaceExample(path: string)
    requires IsFontFile(path)
    ensures EntryStep(FaceEntry(path, "Arial", 80, 100, 0))
            == Keep(FontProvider.FontDescriptor(
                 path, "Arial-Regular", "Arial", "Regular",
                 FontProvider.FontWeight.Normal, FontProvider.FontWidth.Normal, false))
  {
    EntryStepPolicy(FaceEntry(path, "Arial", 80, 100, 0));
    assert FcWeightTryFrom(80) == Success(Regular);
    assert FcWidthTryFrom(100) == Success(FcWidth.Normal);
    assert "Arial" + "-" + "Regular" == "Arial-Regular";
  }

  /**
   * A negative weight aborts the whole listing, even on an entry whose path
   * the extension filter would have dropped, and even after a good entry.
   */
  lemma AbortPrecedesExtensionFilter(good: string, other: string)
    requires IsFontFile(good) && !IsFontFile(other)
    ensures EntryStep(FaceEntry(other, "Notes", -1, 100, 0)) == Abort(FontWeightMismatch(-1))
    ensures Collect(EntrySteps([FaceEntry(good, "Arial", 80, 100, 0), FaceEntry(other, "Notes", -1, 100, 0)]))
            == Failure(FontWeightMismatch(-1))
  {
    RegularFaceExample(good);
    var ps := [FaceEntry(good, "Arial", 80, 100, 0), FaceEntry(other, "Notes", -1, 100, 0)];
    EntryStepPolicy(ps[1]);
    var steps := EntrySteps(ps);
    assert steps[0].Keep? && steps[1] == Abort(FontWeightMismatch(-1));
    assert steps[..1][..0] == [];
    assert Collect(steps[..1]).Success?;
    assert steps[..|steps| - 1] == steps[..1];
  }

  /** "/fonts/readme.txt" is not a font file, so it is one of the paths the filter drops. */
  lemma ReadmeIsNotFontFile()
    ensures !IsFontFile("/fonts/readme.txt")
  {
    PathExtension.ExtensionOfChild("/fonts", "readme", "txt");
    assert "/fonts" + "/" + "readme" + "." + "txt" == "/fonts/readme.txt";
  }

  // ---------------------------------------------------------------------------
  // Font directories

  /** What `FcConfigGetFontDirs` returns: a null list, or the strings `FcStrListNext` yields. */
  datatype StrList = NullStrList | StrList(items: seq<NativeString>)

  /** Where iteration stops: the first null string, or the end of the list. */
  function FirstNull(items: seq<NativeString>): (k: nat)
    ensures k <= |items|
    ensures k < |items| ==> items[k].NullString?
    ensures forall i :: 0 <= i < k ==> items[i].CString?
  {
    if items == [] || items[0].NullString? then 0 else 1 + FirstNull(items[1..])
  }

  /**
   * `get_font_paths`: every string yielded before the first null, in order;
   * a null list is `FontDirsEmpty`, an undecodable string `InvalidString`.
   */
  method GetFontPaths(dirs: StrList) returns (r: Result<seq<string>, ProviderError>)
    ensures dirs.NullStrList? ==> r == Failure(FontDirsEmpty("FcConfigGetFontDirs failed"))
    ensures dirs.StrList? ==>
              (r.Success? <==> forall i :: 0 <= i < FirstNull(dirs.items) ==> Decodable(dirs.items[i]))
    ensures dirs.StrList? && r.Success? ==>
              |r.value| == FirstNull(dirs.items)
              && forall i :: 0 <= i < |r.value| ==> r.value[i] == dirs.items[i].text
    ensures dirs.StrList? && r.Failure? ==> r.error == InvalidString
  {
    if dirs.NullStrList? {
      return Failure(FontDirsEmpty("FcConfigGetFontDirs failed"));
    }
    var items := dirs.items;
    var result: seq<string> := [];
    var i := 0;
    while i < |items| && items[i].CString?
      invariant i <= FirstNull(items)
      invariant |result| == i
      invariant forall j :: 0 <= j < i ==> Decodable(items[j]) && result[j] == items[j].text
    {
      var dir := ToStr(items[i]);
      if dir.Failure? {
        return Failure(dir.error);
      }
      result := result + [dir.value];
      i := i + 1;
    }
    return Success(result);
  }

  // ---------------------------------------------------------------------------
  // Handle lifecycle

  /** A native handle: null, or a live object. */
  datatype Handle = NullHandle | Live(id: nat)

  /** The native destroy calls `drop` can make. */
  datatype Release = PatternDestroy(pattern: Handle) | ObjectSetDestroy(objectSet: Handle) | ConfigDestroy(config: Handle)

  /** What `FcInitLoadConfigAndFonts`, `FcPatternCreate` and `FcObjectSetBuild` would return, in call order. */
  datatype Acquisition = Acquisition(config: Handle, pattern: Handle, objectSet: Handle)

  /** `PlatformFontProvider`: the three handles it owns. */
  datatype PlatformFontProvider = PlatformFontProvider(config: Handle, pattern: Handle, objectSet: Handle)

  /**
   * `new`: fails with `Initialization` at the first constructor that returns
   * null; otherwise owns all three handles.
   */
  function New(acq: Acquisition): (r: Result<PlatformFontProvider, ProviderError>)
    ensures r.Success? <==> acq.config.Live? && acq.pattern.Live? && acq.objectSet.Live?
    ensures r.Success? ==> r.value.config == acq.config && r.value.pattern == acq.pattern
                           && r.value.objectSet == acq.objectSet
    ensures r.Failure? ==> r.error.Initialization?
  {
    if acq.config.NullHandle? then Failure(Initialization("FcInitLoadConfigAndFonts failed"))
    else if acq.pattern.NullHandle? then Failure(Initialization("FcPatternCreate failed"))
    else if acq.objectSet.NullHandle? then Failure(Initialization("FcObjectSetBuild failed"))
    else Success(PlatformFontProvider(acq.config, acq.pattern, acq.objectSet))
  }

  /**
   * The live handles `new` obtained before stopping, in call order. A failed
   * `new` returns without destroying them.
   */
  function Acquired(acq: Acquisition): (hs: seq<Handle>)
    ensures |hs| <= 3 && forall h :: h in hs ==> h.Live?
    ensures hs == [acq.config, acq.pattern, acq.objectSet][..|hs|]
    ensures |hs| == 3 <==> New(acq).Success?
    ensures |hs| < 3 ==> [acq.config, acq.pattern, acq.objectSet][|hs|].NullHandle?
  {
    if acq.config.NullHandle? then []
    else if acq.pattern.NullHandle? then [acq.config]
    else if acq.objectSet.NullHandle? then [acq.config, acq.pattern]
    else [acq.config, acq.pattern, acq.objectSet]
  }

  function ReleaseOrder(c: Release): nat
  {
    match c
    case PatternDestroy(_) => 0
    case ObjectSetDestroy(_) => 1
    case ConfigDestroy(_) => 2
  }

  function Released(c: Release): Handle
  {
    match c
    case PatternDestroy(h) => h
    case ObjectSetDestroy(h) => h
    case ConfigDestroy(h) => h
  }

  /**
   * `drop`: destroys each non-null handle once, pattern first, then the
   * object set, then the config, and never touches a null one.
   */
  function Drop(p: PlatformFontProvider): (calls: seq<Release>)
    ensures forall c :: c in calls ==> Released(c).Live?
    ensures PatternDestroy(p.pattern) in calls <==> p.pattern.Live?
    ensures ObjectSetDestroy(p.objectSet) in calls <==> p.objectSet.Live?
    ensures ConfigDestroy(p.config) in calls <==> p.config.Live?
    ensures forall c :: c in calls ==>
              c in {PatternDestroy(p.pattern), ObjectSetDestroy(p.objectSet), ConfigDestroy(p.config)}
    ensures forall i, j :: 0 <= i < j < |calls| ==> ReleaseOrder(calls[i]) < ReleaseOrder(calls[j])
  {
    (if p.pattern.Live? then [PatternDestroy(p.pattern)] else [])
    + (if p.objectSet.Live? then [ObjectSetDestroy(p.objectSet)] else [])
    + (if p.config.Live? then [ConfigDestroy(p.config)] else [])
  }

  /** After a successful `new`, `drop` destroys every handle `new` acquired, each exactly once. */
  lemma NewThenDropReleasesAll(acq: Acquisition)
    requires New(acq).Success?
    ensures var calls := Drop(New(acq).value);
            multiset(seq(|calls|, i requires 0 <= i < |calls| => Released(calls[i]))) == multiset(Acquired(acq))
  {
    var calls := Drop(New(acq).value);
    assert calls == [PatternDestroy(acq.pattern), ObjectSetDestroy(acq.objectSet), ConfigDestroy(acq.config)];
    var released := seq(|calls|, i requires 0 <= i < |calls| => Released(calls[i]));
    assert released == [acq.pattern, acq.objectSet, acq.config];
    assert Acquired(acq) == [acq.config, acq.pattern, acq.objectSet];
  }

  /** A `new` that stops at the pattern leaves the config it already holds undestroyed. */
  lemma FailedNewKeepsConfig(acq: Acquisition)
    requires acq.config.Live? && acq.pattern.NullHandle?
    ensures New(acq) == Failure(Initialization("FcPatternCreate failed"))
    ensures Acquired(acq) == [acq.config]
  {
  }
}
