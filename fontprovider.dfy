/**
 * The platform-independent font types: the canonical weight and width buckets,
 * whose discriminants are the numbers sent on the wire, and the descriptor
 * record every platform enumerator produces.
 */
module FontProvider {
  import opened Wrappers

  /** Canonical weight buckets, lightest first. */
  datatype FontWeight =
    | Thin | ExtraLight | Light | Normal | Medium
    | SemiBold | Bold | ExtraBold | Black | ExtraBlack

  /** Canonical width (stretch) buckets, narrowest first. */
  datatype FontWidth =
    | UltraCondensed | ExtraCondensed | Condensed | SemiCondensed | Normal
    | SemiExpanded | Expanded | ExtraExpanded | UltraExpanded

  /** The weight variants in declaration order. */
  const AllWeights: seq<FontWeight> :=
    [Thin, ExtraLight, Light, FontWeight.Normal, Medium, SemiBold, Bold, ExtraBold, Black, ExtraBlack]

  /** The width variants in declaration order. */
  const AllWidths: seq<FontWidth> :=
    [UltraCondensed, ExtraCondensed, Condensed, SemiCondensed, FontWidth.Normal,
     SemiExpanded, Expanded, ExtraExpanded, UltraExpanded]

  /** The discriminant of a weight: its wire value. */
  function WeightOrdinal(w: FontWeight): (n: nat)
    ensures 100 <= n <= 950 && n % 50 == 0
  {
    match w
    case Thin => 100
    case ExtraLight => 200
    case Light => 300
    case Normal => 400
    case Medium => 500
    case SemiBold => 600
    case Bold => 700
    case ExtraBold => 800
    case Black => 900
    case ExtraBlack => 950
  }

  /** The discriminant of a width: its wire value (a percentage, rounded). */
  function WidthOrdinal(w: FontWidth): (n: nat)
    ensures 50 <= n <= 200
  {
    match w
    case UltraCondensed => 50
    case ExtraCondensed => 63
    case Condensed => 75
    case SemiCondensed => 88
    case Normal => 100
    case SemiExpanded => 113
    case Expanded => 125
    case ExtraExpanded => 150
    case UltraExpanded => 200
  }

  /** Reading a wire weight back: the variant with that discriminant, if any. */
  function WeightFromOrdinal(n: int): (r: Option<FontWeight>)
    ensures r.Some? ==> WeightOrdinal(r.value) == n
    ensures r.None? ==> forall w :: WeightOrdinal(w) != n
  {
    if n == 100 then Some(Thin)
    else if n == 200 then Some(ExtraLight)
    else if n == 300 then Some(Light)
    else if n == 400 then Some(FontWeight.Normal)
    else if n == 500 then Some(Medium)
    else if n == 600 then Some(SemiBold)
    else if n == 700 then Some(Bold)
    else if n == 800 then Some(ExtraBold)
    else if n == 900 then Some(Black)
    else if n == 950 then Some(ExtraBlack)
    else None
  }

  /** Reading a wire width back: the variant with that discriminant, if any. */
  function WidthFromOrdinal(n: int): (r: Option<FontWidth>)
    ensures r.Some? ==> WidthOrdinal(r.value) == n
    ensures r.None? ==> forall w :: WidthOrdinal(w) != n
  {
    if n == 50 then Some(UltraCondensed)
    else if n == 63 then Some(ExtraCondensed)
    else if n == 75 then Some(Condensed)
    else if n == 88 then Some(SemiCondensed)
    else if n == 100 then Some(FontWidth.Normal)
    else if n == 113 then Some(SemiExpanded)
    else if n == 125 then Some(Expanded)
    else if n == 150 then Some(ExtraExpanded)
    else if n == 200 then Some(UltraExpanded)
    else None
  }

  /** Weight discriminants strictly increase from Thin to ExtraBlack. */
  lemma WeightOrdinalsIncrease()
    ensures |AllWeights| == 10 && forall w :: w in AllWeights
    ensures forall i, j :: 0 <= i < j < |AllWeights| ==> WeightOrdinal(AllWeights[i]) < WeightOrdinal(AllWeights[j])
  {
    forall w ensures w in AllWeights {
      match w
      case Thin => assert AllWeights[0] == w;
      case ExtraLight => assert AllWeights[1] == w;
      case Light => assert AllWeights[2] == w;
      case Normal => assert AllWeights[3] == w;
      case Medium => assert AllWeights[4] == w;
      case SemiBold => assert AllWeights[5] == w;
      case Bold => assert AllWeights[6] == w;
      case ExtraBold => assert AllWeights[7] == w;
      case Black => assert AllWeights[8] == w;
      case ExtraBlack => assert AllWeights[9] == w;
    }
  }

  /** Width discriminants strictly increase from UltraCondensed to UltraExpanded. */
  lemma WidthOrdinalsIncrease()
    ensures |AllWidths| == 9 && forall w :: w in AllWidths
    ensures forall i, j :: 0 <= i < j < |AllWidths| ==> WidthOrdinal(AllWidths[i]) < WidthOrdinal(AllWidths[j])
  {
    forall w ensures w in AllWidths {
      match w
      case UltraCondensed => assert AllWidths[0] == w;
      case ExtraCondensed => assert AllWidths[1] == w;
      case Condensed => assert AllWidths[2] == w;
      case SemiCondensed => assert AllWidths[3] == w;
      case Normal => assert AllWidths[4] == w;
      case SemiExpanded => assert AllWidths[5] == w;
      case Expanded => assert AllWidths[6] == w;
      case ExtraExpanded => assert AllWidths[7] == w;
      case UltraExpanded => assert AllWidths[8] == w;
    }
  }

  /** The wire weight identifies its variant, so the ordinal map is injective. */
  lemma WeightOrdinalRoundTrip(w: FontWeight)
    ensures WeightFromOrdinal(WeightOrdinal(w)) == Some(w)
  {
  }

  /** The wire width identifies its variant, so the ordinal map is injective. */
  lemma WidthOrdinalRoundTrip(w: FontWidth)
    ensures WidthFromOrdinal(WidthOrdinal(w)) == Some(w)
  {
  }

  /** One enumerated font face. */
  datatype FontDescriptor = FontDescriptor(
    path: string,
    postscript: string,
    family: string,
    style: string,
    weight: FontWeight,
    width: FontWidth,
    italic: bool)
}
