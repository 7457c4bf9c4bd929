/** common/openai_image_spec.go: checking a WIDTHxHEIGHT image size, and translating the gateway's
    resolution and ratio presets into such a size. */
module ImageSpec {
  import opened Text
  import opened Numbers

  const MIN_PIXELS := 655360
  const MAX_PIXELS := 8294400
  const MAX_EDGE := 3840
  const SIZE_MULTIPLE := 16

  // ----- ValidateOpenAIImageSize -----------------------------------------------

  datatype SizeError = NotWidthByHeight | BadWidth | BadHeight | OutOfBounds

  /** The limits an explicit size must meet. */
  predicate SizeInBounds(w: int, h: int) {
    && 0 < w <= MAX_EDGE && 0 < h <= MAX_EDGE
    && w % SIZE_MULTIPLE == 0 && h % SIZE_MULTIPLE == 0
    && Max(w, h) <= 3 * Min(w, h)
    && MIN_PIXELS <= w * h <= MAX_PIXELS
  }

  /** `None` is the nil error. */
  function ValidateOpenAIImageSize(size: string): (err: Option<SizeError>) {
    if size == "" || size == "auto" then None
    else
      var parts := Split(size, 'x');
      if |parts| != 2 then Some(NotWidthByHeight)
      else if Atoi(parts[0]).None? then Some(BadWidth)
      else if Atoi(parts[1]).None? then Some(BadHeight)
      else if SizeInBounds(Atoi(parts[0]).value, Atoi(parts[1]).value) then None
      else Some(OutOfBounds)
  }

  function PrintSize(w: nat, h: nat): string {
    Itoa(w) + "x" + Itoa(h)
  }

  /** The size string names these two edges. */
  ghost predicate Names(size: string, w: int, h: int) {
    var parts := Split(size, 'x');
    |parts| == 2 && Atoi(parts[0]) == Some(w) && Atoi(parts[1]) == Some(h)
  }

  lemma SplitPair(a: string, b: string, sep: char)
    requires sep !in a && sep !in b
    ensures Split(a + [sep] + b, sep) == [a, b]
  {
    SplitJoin([a, b], sep);
    assert Join([a, b], sep) == a + [sep] + b;
  }

  /** The printed size parses back to its edges, so the validator judges exactly those edges. */
  lemma PrintedSizeParsesBack(w: nat, h: nat)
    requires w <= MAX_INT64 && h <= MAX_INT64
    ensures Names(PrintSize(w, h), w, h)
    ensures ValidateOpenAIImageSize(PrintSize(w, h)) == if SizeInBounds(w, h) then None else Some(OutOfBounds)
  {
    SplitPair(Itoa(w), Itoa(h), 'x');
    AtoiItoa(w);
    AtoiItoa(h);
    assert IsDigit(PrintSize(w, h)[0]);
  }

  // ----- OpenAIImagePresetSize -------------------------------------------------

  datatype PresetError =
    | UnsupportedResolution
    | InvalidRatio
    | RatioOutOfRange
    | BadSize(error: SizeError)

  /** A parsed request: the longest edge allowed and the two terms of the ratio. */
  datatype Target = Target(edge: nat, w: nat, h: nat)

  datatype Parsed = Rejected(error: PresetError) | Accepted(target: Target)

  /** `strings.ToUpper`, on the one letter that occurs in a resolution name. */
  function ToUpper(s: string): string {
    seq(|s|, i requires 0 <= i < |s| => if s[i] == 'k' then 'K' else s[i])
  }

  function EdgeOf(resolution: string): Option<nat> {
    if resolution == "1K" then Some(1536)
    else if resolution == "2K" then Some(2048)
    else if resolution == "4K" then Some(3840)
    else None
  }

  /** The reading of both inputs, with the source's defaults and in the source's order of checks. */
  function ParsePreset(resolution: string, ratio: string): (p: Parsed) {
    var res := if resolution == "" then "1K" else ToUpper(resolution);
    var parts := Split(if ratio == "" then "1:1" else ratio, ':');
    if EdgeOf(res).None? then Rejected(UnsupportedResolution)
    else if |parts| != 2 then Rejected(InvalidRatio)
    else if !RatioTerm(Atoi(parts[0])) then Rejected(InvalidRatio)
    else if !RatioTerm(Atoi(parts[1])) then Rejected(RatioOutOfRange)
    else
      var w, h := Atoi(parts[0]).value, Atoi(parts[1]).value;
      if Max(w, h) > 3 * Min(w, h) then Rejected(RatioOutOfRange)
      else Accepted(Target(if w == h && res == "1K" then 1024 else EdgeOf(res).value, w, h))
  }

  predicate RatioTerm(n: Option<int>) {
    n.Some? && 0 < n.value <= 1000
  }

  /** The ratio in lowest terms. */
  function Lowest(w: nat, h: nat): (r: (nat, nat))
    requires w > 0 && h > 0
    ensures r.0 > 0 && r.1 > 0
  {
    Reduce(w, h);
    (w / Gcd(w, h), h / Gcd(w, h))
  }

  /** The step count for a ratio in lowest terms. `int(math.Sqrt(8294400/float64(w*h*256)))` is the
      integer square root of the integer quotient. */
  function Steps(edge: nat, w: nat, h: nat): (s: nat)
    requires w > 0 && h > 0
  {
    PositiveProduct(w, h);
    QuotientNonNegative(edge, Max(w, h) * 16);
    QuotientNonNegative(MAX_PIXELS, w * h * 256);
    Min(edge / (Max(w, h) * 16), FloorSqrt(MAX_PIXELS / (w * h * 256)))
  }

  datatype PresetResult = PresetResult(size: string, error: Option<PresetError>)

  function Report(size: string): PresetResult {
    PresetResult(size, match ValidateOpenAIImageSize(size)
                       case None => None
                       case Some(e) => Some(BadSize(e)))
  }

  function WidthFor(t: Target): nat
    requires t.w > 0 && t.h > 0
  {
    var (w, h) := Lowest(t.w, t.h);
    ProductNonNegative(w * 16, Steps(t.edge, w, h));
    w * 16 * Steps(t.edge, w, h)
  }

  function HeightFor(t: Target): nat
    requires t.w > 0 && t.h > 0
  {
    var (w, h) := Lowest(t.w, t.h);
    ProductNonNegative(h * 16, Steps(t.edge, w, h));
    h * 16 * Steps(t.edge, w, h)
  }

  function PresetSize(resolution: string, ratio: string): PresetResult {
    match ParsePreset(resolution, ratio)
    case Rejected(e) => PresetResult("", Some(e))
    case Accepted(t) => Report(PrintSize(WidthFor(t), HeightFor(t)))
  }

  /** The translation as the source runs it, with Euclid's loop. */
  method OpenAIImagePresetSize(resolution: string, ratio: string) returns (size: string, err: Option<PresetError>)
    ensures PresetResult(size, err) == PresetSize(resolution, ratio)
  {
    var res := ToUpper(resolution);
    if res == "" { res := "1K"; }
    var edge := EdgeOf(res);
    if edge.None? { return "", Some(UnsupportedResolution); }
    var parts := Split(if ratio == "" then "1:1" else ratio, ':');
    if |parts| != 2 { return "", Some(InvalidRatio); }
    var first := Atoi(parts[0]);
    if !RatioTerm(first) { return "", Some(InvalidRatio); }
    var second := Atoi(parts[1]);
    if !RatioTerm(second) || Max(first.value, second.value) > 3 * Min(first.value, second.value) {
      return "", Some(RatioOutOfRange);
    }
    ghost var t := ParsePreset(resolution, ratio).target;
    size, err := SizeForTerms(edge.value, res == "1K", first.value, second.value, t);
  }

  /** The arithmetic half of the translation: reduce, choose the step count, print and validate. */
  method SizeForTerms(target: nat, oneK: bool, first: nat, second: nat, ghost t: Target)
    returns (size: string, err: Option<PresetError>)
    requires first > 0 && second > 0
    requires t == Target(if first == second && oneK then 1024 else target, first, second)
    ensures PresetResult(size, err) == Report(PrintSize(WidthFor(t), HeightFor(t)))
  {
    hide Steps, PrintSize, ValidateOpenAIImageSize;
    var edge, w, h := target, first, second;
    var a: nat, b: nat := w, h;
    while b != 0
      invariant Gcd(a, b) == Gcd(first, second)
      decreases b
    {
      a, b := b, a % b;
    }
    ReducedSquare(first, second);
    w, h := w / a, h / a;
    assert (w, h) == Lowest(first, second);
    if w == h && oneK { edge := 1024; }
    var steps := Steps(edge, w, h);
    size := PrintSize(w * 16 * steps, h * 16 * steps);
    var sizeErr := ValidateOpenAIImageSize(size);
    err := if sizeErr.None? then None else Some(BadSize(sizeErr.value));
  }

  /** A ratio is square before reduction exactly when it is after. */
  lemma ReducedSquare(w: nat, h: nat)
    requires w > 0 && h > 0
    ensures w == h <==> Lowest(w, h).0 == Lowest(w, h).1
  {
    Reduce(w, h);
  }

  // ----- What the chosen size means --------------------------------------------

  /** Two edges in the exact ratio, inside the target edge and the pixel cap, both multiples of 16. */
  predicate Fits(t: Target, W: int, H: int) {
    && W > 0 && H > 0
    && W % 16 == 0 && H % 16 == 0
    && W * t.h == H * t.w
    && Max(W, H) <= t.edge
    && W * H <= MAX_PIXELS
  }

  predicate WellFormed(t: Target) {
    0 < t.w <= 1000 && 0 < t.h <= 1000 && Max(t.w, t.h) <= 3 * Min(t.w, t.h) && 0 < t.edge <= MAX_EDGE
  }

  lemma ParsedIsWellFormed(resolution: string, ratio: string)
    ensures ParsePreset(resolution, ratio).Accepted? ==> WellFormed(ParsePreset(resolution, ratio).target)
  {
  }

  /** The step count is exactly the bound the edge and the pixel cap impose. */
  lemma StepsIsBound(edge: nat, w: nat, h: nat, s: nat)
    requires w > 0 && h > 0
    ensures s <= Steps(edge, w, h)
       <==> Max(w * 16 * s, h * 16 * s) <= edge && (w * 16 * s) * (h * 16 * s) <= MAX_PIXELS
  {
    PositiveProduct(w, h);
    QuotientBound(edge, Max(w, h) * 16, s);
    SqrtBound(MAX_PIXELS, w * h * 256, s);
    StepArea(w, h, s);
    LongestEdge(w, h, s);
  }

  lemma StepArea(w: nat, h: nat, s: nat)
    ensures (w * 16 * s) * (h * 16 * s) == (w * h * 256) * (s * s)
  {
    assert (w * 16 * s) * (h * 16 * s) == (w * s) * (h * s) * 256;
    assert (w * s) * (h * s) == (w * h) * (s * s);
  }

  lemma LongestEdge(w: nat, h: nat, s: nat)
    ensures Max(w * 16 * s, h * 16 * s) == Max(w, h) * 16 * s
  {
    if s > 0 { ScalePair(w, h, 16 * s); }
    assert w * 16 * s == w * (16 * s) && h * 16 * s == h * (16 * s);
    assert Max(w, h) * 16 * s == Max(w, h) * (16 * s);
  }

  lemma RatioInLowestTerms(t: Target, W: int, H: int)
    requires t.w > 0 && t.h > 0
    ensures var (w, h) := Lowest(t.w, t.h);
            Coprime(w, h) && (W * t.h == H * t.w <==> W * h == H * w)
  {
    Reduce(t.w, t.h);
    var (w, h) := Lowest(t.w, t.h);
    CancelRatio(Gcd(t.w, t.h), w, h, W, H);
  }

  /** Every fitting pair is a multiple, at most the step count, of one base size. */
  lemma FitsOnlyMultiples(t: Target, W: int, H: int) returns (s: nat)
    requires WellFormed(t) && Fits(t, W, H)
    ensures var (w, h) := Lowest(t.w, t.h);
            1 <= s <= Steps(t.edge, w, h) && W == w * 16 * s && H == h * 16 * s
  {
    var (w, h) := Lowest(t.w, t.h);
    RatioInLowestTerms(t, W, H);
    var k := CommonMultiple(w, h, W, H, 16);
    PositiveFactor(w * 16, k);
    s := k;
    StepsIsBound(t.edge, w, h, s);
  }

  /** And every such multiple fits. */
  lemma MultiplesFit(t: Target, s: nat)
    requires WellFormed(t)
    requires var (w, h) := Lowest(t.w, t.h); 1 <= s <= Steps(t.edge, w, h)
    ensures var (w, h) := Lowest(t.w, t.h); Fits(t, w * 16 * s, h * 16 * s)
  {
    var (w, h) := Lowest(t.w, t.h);
    StepsIsBound(t.edge, w, h, s);
    StepMultiple(w, h, s);
    StepMultiple(h, w, s);
    RatioInLowestTerms(t, w * 16 * s, h * 16 * s);
  }

  /** MAXIMALITY. The chosen edges dominate every fitting pair, and fit themselves unless they are 0. */
  lemma ChosenSizeIsLargest(t: Target)
    requires WellFormed(t)
    ensures WidthFor(t) <= t.edge && HeightFor(t) <= t.edge
    ensures WidthFor(t) > 0 ==> Fits(t, WidthFor(t), HeightFor(t))
    ensures forall W, H :: Fits(t, W, H) ==> W <= WidthFor(t) && H <= HeightFor(t)
  {
    var (w, h) := Lowest(t.w, t.h);
    var s := Steps(t.edge, w, h);
    StepsIsBound(t.edge, w, h, s);
    if s > 0 { MultiplesFit(t, s); }
    forall W, H | Fits(t, W, H)
      ensures W <= WidthFor(t) && H <= HeightFor(t)
    {
      var s' := FitsOnlyMultiples(t, W, H);
      ProductOrder(w * 16, s, w * 16, s');
      ProductOrder(h * 16, s, h * 16, s');
    }
  }

  /** The size string is accepted by the validator, has exactly the ratio, and stays in the edge. */
  ghost predicate Realises(t: Target, size: string) {
    && ValidateOpenAIImageSize(size).None?
    && exists W, H :: Names(size, W, H) && W * t.h == H * t.w && Max(W, H) <= t.edge
  }

  lemma ValidRealisationFits(t: Target, size: string, W: int, H: int)
    requires ValidateOpenAIImageSize(size).None? && Names(size, W, H)
    requires W * t.h == H * t.w && Max(W, H) <= t.edge
    ensures SizeInBounds(W, H) && Fits(t, W, H)
  {
    SplitJoin([""], 'x');
    SplitJoin(["auto"], 'x');
  }

  /** A fitting pair that is larger than a valid size is valid too. */
  lemma LargerFitIsInBounds(t: Target, W: int, H: int, W': int, H': int)
    requires WellFormed(t) && Fits(t, W, H) && SizeInBounds(W', H') && W' <= W && H' <= H
    ensures SizeInBounds(W, H)
  {
    ProductOrder(W, H, W', H');
    if t.w >= t.h {
      RatioBound(W, H, t.w, t.h);
    } else {
      RatioBound(H, W, t.h, t.w);
    }
  }

  lemma SizeForSucceedsIff(t: Target)
    requires WellFormed(t)
    ensures Report(PrintSize(WidthFor(t), HeightFor(t))).error.None? <==> exists size :: Realises(t, size)
  {
    ChosenSizeIsLargest(t);
    var W, H := WidthFor(t), HeightFor(t);
    PrintedSizeParsesBack(W, H);
    if SizeInBounds(W, H) {
      assert Realises(t, PrintSize(W, H));
    }
    if size :| Realises(t, size) {
      var W', H' :| Names(size, W', H') && W' * t.h == H' * t.w && Max(W', H') <= t.edge;
      ValidRealisationFits(t, size, W', H');
      LargerFitIsInBounds(t, W, H, W', H');
    }
  }

  /** EXACT SOLVER. For every accepted ratio and resolution the preset succeeds if and only if some
      valid size of exactly that ratio exists within the target edge. */
  lemma PresetSucceedsIffSizeExists(resolution: string, ratio: string)
    requires ParsePreset(resolution, ratio).Accepted?
    ensures PresetSize(resolution, ratio).error.None?
       <==> exists size :: Realises(ParsePreset(resolution, ratio).target, size)
  {
    ParsedIsWellFormed(resolution, ratio);
    SizeForSucceedsIff(ParsePreset(resolution, ratio).target);
  }

  /** On success the returned size is itself a valid realisation, and the largest one. */
  lemma SuccessReturnsLargestValidSize(resolution: string, ratio: string)
    requires PresetSize(resolution, ratio).error.None?
    ensures ParsePreset(resolution, ratio).Accepted?
    ensures var t := ParsePreset(resolution, ratio).target;
            && WellFormed(t)
            && Realises(t, PresetSize(resolution, ratio).size)
            && Names(PresetSize(resolution, ratio).size, WidthFor(t), HeightFor(t))
            && (forall size, W, H :: Realises(t, size) && Names(size, W, H) ==> W <= WidthFor(t) && H <= HeightFor(t))
  {
    ParsedIsWellFormed(resolution, ratio);
    var t := ParsePreset(resolution, ratio).target;
    ChosenSizeIsLargest(t);
    PrintedSizeParsesBack(WidthFor(t), HeightFor(t));
    forall size, W, H | Realises(t, size) && Names(size, W, H)
      ensures W <= WidthFor(t) && H <= HeightFor(t)
    {
      ValidRealisationFits(t, size, W, H);
    }
  }

  // ----- Invariance under scaling and transposition ----------------------------

  /** What a printed ratio parses to. */
  function TermsTarget(resolution: string, w: nat, h: nat): Parsed {
    var res := if resolution == "" then "1K" else ToUpper(resolution);
    if EdgeOf(res).None? then Rejected(UnsupportedResolution)
    else if Max(w, h) > 3 * Min(w, h) then Rejected(RatioOutOfRange)
    else Accepted(Target(if w == h && res == "1K" then 1024 else EdgeOf(res).value, w, h))
  }

  lemma ParsePrinted(resolution: string, w: nat, h: nat)
    requires 0 < w <= 1000 && 0 < h <= 1000
    ensures ParsePreset(resolution, Itoa(w) + ":" + Itoa(h)) == TermsTarget(resolution, w, h)
  {
    SplitPair(Itoa(w), Itoa(h), ':');
    AtoiItoa(w);
    AtoiItoa(h);
  }

  /** The edge a resolution stands for, 0 if it stands for none. */
  function NominalEdge(resolution: string): nat {
    match resolution
    case "" => 1536
    case "1K" => 1536
    case "1k" => 1536
    case "2K" => 2048
    case "2k" => 2048
    case "4K" => 3840
    case "4k" => 3840
    case _ => 0
  }

  lemma ResolutionReads(resolution: string)
    ensures var res := if resolution == "" then "1K" else ToUpper(resolution);
            && EdgeOf(res) == (if NominalEdge(resolution) == 0 then None else Some(NominalEdge(resolution)))
            && (res == "1K" <==> NominalEdge(resolution) == 1536)
  {
    var res := ToUpper(resolution);
    if |resolution| == 2 {
      assert resolution == [resolution[0], resolution[1]] && res == [res[0], res[1]];
    }
  }

  /** EXACT SOLVER, on the written inputs. For every resolution and every two written terms, in the
      source's order of checks: an unknown resolution is refused, then a first term that is not from 1
      to 1000, then such a second term or a ratio beyond 3:1; otherwise the preset succeeds if and only
      if a valid size of that ratio exists within 1536, 2048 or 3840, or within 1024 for a square 1K. */
  lemma PresetForWrittenTerms(resolution: string, w: nat, h: nat)
    requires w <= MAX_INT64 && h <= MAX_INT64
    ensures var p := PresetSize(resolution, Itoa(w) + ":" + Itoa(h));
            if NominalEdge(resolution) == 0 then p == PresetResult("", Some(UnsupportedResolution))
            else if w == 0 || w > 1000 then p == PresetResult("", Some(InvalidRatio))
            else if h == 0 || h > 1000 || w > 3 * h || h > 3 * w then p == PresetResult("", Some(RatioOutOfRange))
            else
              var edge := if w == h && NominalEdge(resolution) == 1536 then 1024 else NominalEdge(resolution);
              p.error.None? <==> exists size :: Realises(Target(edge, w, h), size)
  {
    hide Realises, NominalEdge, ParsePreset, WidthFor, HeightFor, Report, Itoa;
    var ratio := Itoa(w) + ":" + Itoa(h);
    ParseWrittenTerms(resolution, w, h);
    if ParsePreset(resolution, ratio).Accepted? { PresetSucceedsIffSizeExists(resolution, ratio); }
  }

  lemma ParseWrittenTerms(resolution: string, w: nat, h: nat)
    requires w <= MAX_INT64 && h <= MAX_INT64
    ensures ParsePreset(resolution, Itoa(w) + ":" + Itoa(h)) ==
            if NominalEdge(resolution) == 0 then Rejected(UnsupportedResolution)
            else if w == 0 || w > 1000 then Rejected(InvalidRatio)
            else if h == 0 || h > 1000 || w > 3 * h || h > 3 * w then Rejected(RatioOutOfRange)
            else
              var edge := if w == h && NominalEdge(resolution) == 1536 then 1024 else NominalEdge(resolution);
              Accepted(Target(edge, w, h))
  {
    hide NominalEdge, EdgeOf, ToUpper, Itoa, Atoi, Split;
    ResolutionReads(resolution);
    SplitPair(Itoa(w), Itoa(h), ':');
    AtoiItoa(w);
    AtoiItoa(h);
  }

  /** An empty ratio is 1:1, and text that is not two parts is refused after the resolution. */
  lemma PresetRatioForms(resolution: string, ratio: string)
    ensures PresetSize(resolution, "") == PresetSize(resolution, "1:1")
    ensures NominalEdge(resolution) != 0 && ratio != "" && |Split(ratio, ':')| != 2 ==>
              PresetSize(resolution, ratio) == PresetResult("", Some(InvalidRatio))
  {
    hide NominalEdge, EdgeOf, ToUpper;
    ResolutionReads(resolution);
  }

  /** The validator on written edges: multiples of 16 up to 3840, within 3:1, 655360 to 8294400 pixels. */
  lemma ValidatorOnWrittenEdges(w: nat, h: nat)
    requires w <= MAX_INT64 && h <= MAX_INT64
    ensures ValidateOpenAIImageSize(PrintSize(w, h)).None? <==>
            && 16 <= w <= 3840 && 16 <= h <= 3840 && w % 16 == 0 && h % 16 == 0
            && w <= 3 * h && h <= 3 * w && 655360 <= w * h && w * h <= 8294400
  {
    hide PrintSize, ValidateOpenAIImageSize;
    PrintedSizeParsesBack(w, h);
  }

  /** The validator on other text: nothing and "auto" pass, text that is not two parts does not, nor does
      an edge that is no number, the width first. */
  lemma ValidatorOnOtherText(size: string)
    ensures ValidateOpenAIImageSize("").None? && ValidateOpenAIImageSize("auto").None?
    ensures size != "" && size != "auto" && |Split(size, 'x')| != 2 ==>
              ValidateOpenAIImageSize(size) == Some(NotWidthByHeight)
    ensures |Split(size, 'x')| == 2 ==>
              var parts := Split(size, 'x');
              && (Atoi(parts[0]).None? ==> ValidateOpenAIImageSize(size) == Some(BadWidth))
              && (Atoi(parts[0]).Some? && Atoi(parts[1]).None? ==> ValidateOpenAIImageSize(size) == Some(BadHeight))
  {
    SplitStep("", 'x');
    assert "auto"[1..] == "uto" && "uto"[1..] == "to" && "to"[1..] == "o" && "o"[1..] == "";
  }

  /** Only the reduced ratio matters: scaling both terms gives the same answer. */
  lemma ScaledRatioSameSize(resolution: string, w: nat, h: nat, c: nat)
    requires 0 < w <= 1000 && 0 < h <= 1000 && 0 < c
    requires w * c <= 1000 && h * c <= 1000
    ensures PresetSize(resolution, Itoa(w * c) + ":" + Itoa(h * c)) == PresetSize(resolution, Itoa(w) + ":" + Itoa(h))
  {
    LowestTermsScale(w, h, c);
    ParsePrinted(resolution, w, h);
    ParsePrinted(resolution, w * c, h * c);
    ScalePair(w, h, c);
  }

  /** Swapping the terms of the ratio swaps the edges. */
  lemma SwappedEdges(edge: nat, w: nat, h: nat)
    requires w > 0 && h > 0
    ensures WidthFor(Target(edge, w, h)) == HeightFor(Target(edge, h, w))
    ensures HeightFor(Target(edge, w, h)) == WidthFor(Target(edge, h, w))
  {
    GcdSymmetric(w, h);
    var (w0, h0) := Lowest(w, h);
    assert w0 * h0 == h0 * w0;
  }

  /** Swapping the terms of the ratio transposes the size and keeps the verdict. */
  lemma SwappedRatioTransposesSize(resolution: string, w: nat, h: nat)
    requires 0 < w <= 1000 && 0 < h <= 1000
    ensures var p := PresetSize(resolution, Itoa(w) + ":" + Itoa(h));
            var q := PresetSize(resolution, Itoa(h) + ":" + Itoa(w));
            && p.error == q.error
            && (if TermsTarget(resolution, w, h).Rejected? then p.size == q.size == ""
                else var t := TermsTarget(resolution, w, h).target;
                     p.size == PrintSize(WidthFor(t), HeightFor(t)) && q.size == PrintSize(HeightFor(t), WidthFor(t)))
  {
    ParsePrinted(resolution, w, h);
    ParsePrinted(resolution, h, w);
    if TermsTarget(resolution, w, h).Accepted? {
      var t := TermsTarget(resolution, w, h).target;
      SwappedEdges(t.edge, w, h);
      ParsedIsWellFormed(resolution, Itoa(w) + ":" + Itoa(h));
      ChosenSizeIsLargest(t);
      TransposedVerdict(WidthFor(t), HeightFor(t));
    }
  }

  lemma TransposedVerdict(W: nat, H: nat)
    requires W <= MAX_EDGE && H <= MAX_EDGE
    ensures Report(PrintSize(W, H)).error == Report(PrintSize(H, W)).error
  {
    PrintedSizeParsesBack(W, H);
    PrintedSizeParsesBack(H, W);
    assert W * H == H * W;
  }

  /** Not every accepted ratio has a size: 1000:999 is in range, but one step of it is 16000 wide. */
  lemma AcceptedRatioCanFail()
    ensures PresetSize("4K", Itoa(1000) + ":" + Itoa(999)) == PresetResult("0x0", Some(BadSize(OutOfBounds)))
  {
    ParsePrinted("4K", 1000, 999);
    assert ToUpper("4K") == "4K";
    ThousandToNearlyThousand();
    PrintedSizeParsesBack(0, 0);
    assert PrintSize(0, 0) == "0x0";
  }

  lemma ThousandToNearlyThousand()
    ensures WidthFor(Target(3840, 1000, 999)) == HeightFor(Target(3840, 1000, 999)) == 0
  {
    assert Lowest(1000, 999) == (1000, 999) by {
      assert Gcd(1000, 999) == Gcd(999, 1) == Gcd(1, 0) == 1;
    }
    assert Steps(3840, 1000, 999) == 0 by { StepsIsBound(3840, 1000, 999, 1); }
  }
}
