/**
 * The font-files handler of the newer revision: it lists the fonts through
 * the platform provider and groups the descriptors by file path, one JSON
 * face per descriptor.
 */
module RouteFontFiles {
  import opened Wrappers
  import opened Dto
  import opened Grouping
  import FontProvider
  import PlatformLinux

  /** `FontFilesHandlerError`: the provider's listing failed. */
  datatype HandlerError = FontLoading(source: PlatformLinux.ProviderError)

  /**
   * One descriptor as a JSON face: the names and the italic flag carried
   * over, weight and stretch as the enums' discriminants.
   */
  function ToDto(d: FontProvider.FontDescriptor): (r: FontDescriptorDto)
    ensures r.postscript == d.postscript && r.family == d.family && r.style == d.style
    ensures r.italic == d.italic
    ensures FontProvider.WeightFromOrdinal(r.weight) == Some(d.weight)
    ensures FontProvider.WidthFromOrdinal(r.stretch) == Some(d.width)
  {
    FontProvider.WeightOrdinalRoundTrip(d.weight);
    FontProvider.WidthOrdinalRoundTrip(d.width);
    FontDescriptorDto(
      d.postscript, d.family, d.style,
      FontProvider.WeightOrdinal(d.weight), FontProvider.WidthOrdinal(d.width), d.italic)
  }

  /** Each descriptor's map key and JSON face, in listing order. */
  function Tagged(descs: seq<FontProvider.FontDescriptor>): (r: seq<(string, FontDescriptorDto)>)
    ensures |r| == |descs|
    ensures forall i :: 0 <= i < |descs| ==> r[i] == (descs[i].path, ToDto(descs[i]))
  {
    seq(|descs|, i requires 0 <= i < |descs| => (descs[i].path, ToDto(descs[i])))
  }

  /**
   * `handler`: a failed listing is returned as an error before any map is
   * built; otherwise the response carries the protocol version and the
   * descriptors grouped by path, in listing order within each path.
   */
  method Handler(protocolVersion: nat, fonts: Result<seq<FontProvider.FontDescriptor>, PlatformLinux.ProviderError>)
    returns (r: Result<FontFilesDto, HandlerError>)
    ensures fonts.Failure? <==> r.Failure?
    ensures fonts.Failure? ==> r.error == FontLoading(fonts.error)
    ensures fonts.Success? ==> r.value.version == protocolVersion
    ensures fonts.Success? ==> Grouped(r.value.fontFiles, Tagged(fonts.value))
  {
    if fonts.Failure? {
      return Failure(FontLoading(fonts.error));
    }
    var descs := fonts.value;
    ghost var pairs := Tagged(descs);
    var fontFiles: map<string, seq<FontDescriptorDto>> := map[];
    for i := 0 to |descs|
      invariant Grouped(fontFiles, pairs[..i])
    {
      var descriptor := descs[i];
      var fontDesc := ToDto(descriptor);
      GroupStep(fontFiles, pairs[..i], descriptor.path, fontDesc);
      assert pairs[..i + 1] == pairs[..i] + [(descriptor.path, fontDesc)];
      if descriptor.path in fontFiles {
        fontFiles := fontFiles[descriptor.path := fontFiles[descriptor.path] + [fontDesc]];
      } else {
        fontFiles := fontFiles[descriptor.path := [fontDesc]];
      }
    }
    assert pairs[..|descs|] == pairs;
    return Success(FontFilesDto(protocolVersion, fontFiles));
  }

  /**
   * Every descriptor's face appears in its path's list, at the position given
   * by the number of earlier descriptors with the same path, so faces of one
   * file keep their listing order.
   */
  lemma EveryFaceListed(descs: seq<FontProvider.FontDescriptor>, m: map<string, seq<FontDescriptorDto>>, i: nat)
    requires Grouped(m, Tagged(descs)) && i < |descs|
    ensures descs[i].path in m && Rank(Tagged(descs), i) < |m[descs[i].path]|
    ensures m[descs[i].path][Rank(Tagged(descs), i)] == ToDto(descs[i])
  {
    var pairs := Tagged(descs);
    assert pairs[i].0 == descs[i].path;
    assert descs[i].path in KeysOf(pairs);
    FaceAtRank(pairs, i);
  }

  /** Of two descriptors of one file, the earlier one's face comes first. */
  lemma ListingOrderKept(descs: seq<FontProvider.FontDescriptor>, i: nat, j: nat)
    requires i < j < |descs| && descs[i].path == descs[j].path
    ensures Rank(Tagged(descs), i) < Rank(Tagged(descs), j)
  {
    RankOrder(Tagged(descs), i, j);
  }

  /** Every listed face is the face of a descriptor with that path. */
  lemma ListedFaceOrigin(descs: seq<FontProvider.FontDescriptor>, m: map<string, seq<FontDescriptorDto>>,
                         k: string, n: nat)
    requires Grouped(m, Tagged(descs)) && k in m && n < |m[k]|
    ensures exists i :: 0 <= i < |descs| && descs[i].path == k && m[k][n] == ToDto(descs[i])
  {
    var pairs := Tagged(descs);
    FaceOrigin(pairs, k, n);
    var i :| 0 <= i < |pairs| && pairs[i].0 == k && Rank(pairs, i) == n;
    FaceAtRank(pairs, i);
  }

  /**
   * Every list is non-empty and the list lengths, taken once per path, add
   * up to the number of descriptors: no face is lost or repeated.
   */
  lemma ListLengthsAddUp(descs: seq<FontProvider.FontDescriptor>, m: map<string, seq<FontDescriptorDto>>)
    requires Grouped(m, Tagged(descs))
    ensures forall k :: k in m ==> |m[k]| > 0
    ensures NoDuplicates(DistinctKeys(Tagged(descs))) && forall k :: k in DistinctKeys(Tagged(descs)) <==> k in m
    ensures SumFaces(Tagged(descs), DistinctKeys(Tagged(descs))) == |descs|
  {
    var pairs := Tagged(descs);
    forall k | k in m ensures |m[k]| > 0 {
      FacesNonEmpty(pairs, k);
    }
    TotalFaces(pairs);
  }

  /** Every face in a response carries a canonical weight and stretch number. */
  lemma ResponseCarriesWireOrdinals(descs: seq<FontProvider.FontDescriptor>, m: map<string, seq<FontDescriptorDto>>)
    requires Grouped(m, Tagged(descs))
    ensures forall k, n :: k in m && 0 <= n < |m[k]| ==>
              m[k][n].weight in {100, 200, 300, 400, 500, 600, 700, 800, 900, 950}
              && m[k][n].stretch in {50, 63, 75, 88, 100, 113, 125, 150, 200}
  {
    forall k, n | k in m && 0 <= n < |m[k]|
      ensures m[k][n].weight in {100, 200, 300, 400, 500, 600, 700, 800, 900, 950}
              && m[k][n].stretch in {50, 63, 75, 88, 100, 113, 125, 150, 200}
    {
      ListedFaceOrigin(descs, m, k, n);
    }
  }

  /** Two faces of one file give one key whose list holds both, in order. */
  lemma TwoFacesOneFile(regular: FontProvider.FontDescriptor, bold: FontProvider.FontDescriptor,
                        m: map<string, seq<FontDescriptorDto>>)
    requires regular.path == bold.path
    requires Grouped(m, Tagged([regular, bold]))
    ensures m.Keys == {regular.path}
    ensures m[regular.path] == [ToDto(regular), ToDto(bold)]
  {
    var pairs := Tagged([regular, bold]);
    assert KeysOf(pairs) == {regular.path} by {
      assert pairs[0].0 == regular.path && pairs[1].0 == regular.path;
    }
    assert pairs[..|pairs| - 1] == [pairs[0]];
    assert [pairs[0]][..0] == [];
    assert Faces([pairs[0]], regular.path) == [ToDto(regular)];
    assert Faces(pairs, regular.path) == [ToDto(regular), ToDto(bold)];
  }
}
