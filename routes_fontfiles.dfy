/**
 * The font-files handler of the older revision: it walks the system font
 * source's handles, loads each font file, reads its properties and names,
 * and groups one JSON face per font by path.
 */
module RoutesFontFiles {
  import opened Wrappers
  import opened Dto
  import opened Grouping
  import opened Steps

  /** The font library's slant style. */
  datatype Style = Normal | Italic | Oblique

  /** The display text of a style: the variant's name. */
  function StyleName(style: Style): string
  {
    match style
    case Normal => "Normal"
    case Italic => "Italic"
    case Oblique => "Oblique"
  }

  /** `convert_style`: "Regular" for the upright style, the style's display text otherwise. */
  function ConvertStyle(style: Style): (r: string)
    ensures r == "Regular" <==> style == Normal
    ensures style != Normal ==> r == StyleName(style)
  {
    if style == Normal then "Regular" else StyleName(style)
  }

  /** Distinct styles get distinct labels. */
  lemma ConvertStyleInjective(a: Style, b: Style)
    ensures ConvertStyle(a) == ConvertStyle(b) <==> a == b
  {
  }

  /** The properties of a loaded font; weight and stretch as the numbers the handler rounds them to. */
  datatype Properties = Properties(style: Style, weight: nat, stretch: nat)

  /** A loaded font as seen through the accessors the handler calls. */
  datatype LoadedFont = LoadedFont(
    properties: Option<Properties>,  // None: reading the properties panicked, and the panic was caught
    postscriptName: Option<string>,
    data: Option<seq<bv8>>,
    familyName: string)

  /** Why a font file could not be loaded, or the font list could not be obtained. */
  datatype FontLoadingError = FontLoadingError(reason: string)
  datatype SelectionError = SelectionError(reason: string)

  /** A handle from the system font source: a file path (with the outcome of loading it), or in-memory data. */
  datatype FontHandle =
    | PathHandle(path: string, pathUtf8: bool, load: Result<LoadedFont, FontLoadingError>)
    | MemoryHandle

  /** `FontFilesHandlerError`. */
  datatype HandlerError = FontLoading(loading: FontLoadingError) | FontSelection(selection: SelectionError)

  /** How the handler stops early: with an error response, or by panicking on a path that is not UTF-8. */
  datatype Halt = Error(error: HandlerError) | Panic

  /**
   * The postscript name sent for a font: its own if it has one, else the
   * digest of its data if the data can be copied, else "<family>_<style>".
   */
  function Postscript(font: LoadedFont, style: Style, digest: seq<bv8> -> string): (r: string)
    ensures font.postscriptName.Some? ==> r == font.postscriptName.value
    ensures font.postscriptName.None? && font.data.Some? ==> r == digest(font.data.value)
    ensures font.postscriptName.None? && font.data.None? ==>
              r == font.familyName + "_" + ConvertStyle(style) && (style == Normal <==> r == font.familyName + "_Regular")
  {
    if font.postscriptName.Some? then font.postscriptName.value
    else if font.data.Some? then digest(font.data.value)
    else
      assert (font.familyName + "_" + ConvertStyle(style))[|font.familyName| + 1..] == ConvertStyle(style);
      assert (font.familyName + "_Regular")[|font.familyName| + 1..] == "Regular";
      font.familyName + "_" + ConvertStyle(style)
  }

  /** What one iteration of the handler's loop does with one handle. */
  function HandleStep(h: FontHandle, digest: seq<bv8> -> string): (r: Step<(string, FontDescriptorDto), Halt>)
    ensures h.MemoryHandle? ==> r.Skip?
    ensures r.Keep? ==> h.PathHandle? && h.pathUtf8 && r.value.0 == h.path
    ensures r == Abort(Panic) <==> h.PathHandle? && !h.pathUtf8
  {
    match h
    case MemoryHandle => Skip
    case PathHandle(path, utf8, load) =>
      if !utf8 then Abort(Panic)
      else
        match load
        case Failure(e) => Abort(Error(FontLoading(e)))
        case Success(font) =>
          match font.properties
          case None => Skip
          case Some(props) =>
            Keep((path, FontDescriptorDto(
              Postscript(font, props.style, digest), font.familyName, ConvertStyle(props.style),
              props.weight, props.stretch, props.style != Normal)))
  }

  /**
   * The per-handle policy. Handles that are not file paths are skipped, so
   * are fonts whose properties cannot be read; a path that is not UTF-8
   * panics and a load failure aborts the whole request. A kept font is
   * filed under its path, labelled with `ConvertStyle`, italic exactly when
   * its style is not Normal, and named by the postscript fallback chain.
   */
  lemma HandleStepPolicy(h: FontHandle, digest: seq<bv8> -> string)
    ensures HandleStep(h, digest).Keep? <==>
              h.PathHandle? && h.pathUtf8 && h.load.Success? && h.load.value.properties.Some?
    ensures HandleStep(h, digest) == Abort(Panic) <==> h.PathHandle? && !h.pathUtf8
    ensures HandleStep(h, digest).Abort? && HandleStep(h, digest) != Abort(Panic) <==>
              h.PathHandle? && h.pathUtf8 && h.load.Failure?
    ensures h.PathHandle? && h.pathUtf8 && h.load.Failure? ==>
              HandleStep(h, digest) == Abort(Error(FontLoading(h.load.error)))
    ensures HandleStep(h, digest).Keep? ==>
              var (path, face) := HandleStep(h, digest).value;
              var font := h.load.value;
              var style := font.properties.value.style;
              && path == h.path
              && face.family == font.familyName
              && face.style == ConvertStyle(style)
              && (face.italic <==> style != Normal)
              && face.weight == font.properties.value.weight
              && face.stretch == font.properties.value.stretch
              && (font.postscriptName.Some? ==> face.postscript == font.postscriptName.value)
              && (font.postscriptName.None? && font.data.Some? ==> face.postscript == digest(font.data.value))
              && (font.postscriptName.None? && font.data.None? ==>
                    face.postscript == font.familyName + "_" + ConvertStyle(style))
  {
  }

  /** The step of each handle, in the order the source lists them. */
  function HandleSteps(hs: seq<FontHandle>, digest: seq<bv8> -> string): (r: seq<Step<(string, FontDescriptorDto), Halt>>)
    ensures |r| == |hs| && forall i :: 0 <= i < |hs| ==> r[i] == HandleStep(hs[i], digest)
  {
    seq(|hs|, i requires 0 <= i < |hs| => HandleStep(hs[i], digest))
  }

  /**
   * `handler`: a failed font listing is a `FontSelection` error; otherwise
   * the response is the grouping of the kept faces by path, unless a handle
   * stops the request first. `digest` stands for the SHA-256 hex digest.
   */
  method Handler(protocolVersion: nat, selection: Result<seq<FontHandle>, SelectionError>, digest: seq<bv8> -> string)
    returns (r: Result<FontFilesDto, Halt>)
    ensures selection.Failure? ==> r == Failure(Error(FontSelection(selection.error)))
    ensures selection.Success? ==>
              var c := Collect(HandleSteps(selection.value, digest));
              && (r.Success? <==> c.Success?)
              && (r.Failure? ==> r.error == c.error)
              && (r.Success? ==> r.value.version == protocolVersion && Grouped(r.value.fontFiles, c.value))
  {
    if selection.Failure? {
      return Failure(Error(FontSelection(selection.error)));
    }
    var handles := selection.value;
    ghost var steps := HandleSteps(handles, digest);
    var fontFiles: map<string, seq<FontDescriptorDto>> := map[];
    for i := 0 to |handles|
      invariant Collect(steps[..i]).Success? && Grouped(fontFiles, Collect(steps[..i]).value)
    {
      assert steps[..i + 1][..i] == steps[..i] && steps[i] == HandleStep(handles[i], digest);
      var handle := handles[i];
      if handle.MemoryHandle? {
        continue;
      }
      if !handle.pathUtf8 {
        CollectAbortAt(steps, i);
        return Failure(Panic);
      }
      var fontPath := handle.path;
      if handle.load.Failure? {
        CollectAbortAt(steps, i);
        return Failure(Error(FontLoading(handle.load.error)));
      }
      var font := handle.load.value;
      if font.properties.None? {
        continue;
      }
      var props := font.properties.value;
      var postscript := Postscript(font, props.style, digest);
      var fontDesc := FontDescriptorDto(
        postscript, font.familyName, ConvertStyle(props.style),
        props.weight, props.stretch, props.style != Normal);
      GroupStep(fontFiles, Collect(steps[..i]).value, fontPath, fontDesc);
      if fontPath in fontFiles {
        fontFiles := fontFiles[fontPath := fontFiles[fontPath] + [fontDesc]];
      } else {
        fontFiles := fontFiles[fontPath := [fontDesc]];
      }
    }
    assert steps[..|handles|] == steps;
    return Success(FontFilesDto(protocolVersion, fontFiles));
  }

  /**
   * The request succeeds exactly when no handle is a non-UTF-8 path and no
   * path handle fails to load; then every face in the response comes from a
   * kept handle with that path, and a failed request reports the first
   * handle that stopped it.
   */
  lemma HandlerOutcome(hs: seq<FontHandle>, digest: seq<bv8> -> string)
    ensures Collect(HandleSteps(hs, digest)).Success? <==>
              forall i :: 0 <= i < |hs| ==> !(hs[i].PathHandle? && (!hs[i].pathUtf8 || hs[i].load.Failure?))
    ensures Collect(HandleSteps(hs, digest)).Success? ==>
              forall n :: 0 <= n < |Collect(HandleSteps(hs, digest)).value| ==>
                exists i :: 0 <= i < |hs| && HandleStep(hs[i], digest) == Keep(Collect(HandleSteps(hs, digest)).value[n])
    ensures Collect(HandleSteps(hs, digest)).Failure? ==>
              exists i :: 0 <= i < |hs| && HandleStep(hs[i], digest) == Abort(Collect(HandleSteps(hs, digest)).error)
  {
    var steps := HandleSteps(hs, digest);
    CollectSucceeds(steps);
    forall i | 0 <= i < |hs| ensures steps[i].Abort? <==> hs[i].PathHandle? && (!hs[i].pathUtf8 || hs[i].load.Failure?) {
      HandleStepPolicy(hs[i], digest);
    }
    if Collect(steps).Success? {
      forall n | 0 <= n < |Collect(steps).value|
        ensures exists i :: 0 <= i < |hs| && HandleStep(hs[i], digest) == Keep(Collect(steps).value[n])
      {
        KeptOrigin(steps, n);
      }
    } else {
      CollectFirstAbort(steps);
    }
  }
}
