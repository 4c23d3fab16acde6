/**
  The base map of statedraw.py: class Plot (an image plus the geographic
  frame it was sized for) and `main_map`, which parses boundary rows into
  regions, takes their union bounding box, sizes the image and outlines
  every region on it.
*/
module StateDraw {
  import opened Wrappers
  import opened Projection
  import opened Canvas
  import opened Geography

  class Plot {
    const width: int
    const minLong: real
    const minLat: real
    const maxLong: real
    const maxLat: real
    /** The image the regions are outlined on. */
    var im: Image

    /** The frame every coordinate transform of this plot uses. */
    function View(): Frame {
      Frame(width, minLong, minLat, maxLong, maxLat)
    }

    /** What Plot.__init__ needed to succeed; the fields never change afterwards. */
    ghost predicate Valid() {
      View().ValidSize()
    }

    /**
      `Plot.__init__`: records the frame and creates a white image
      `int(width)` by `int(proportional_height(...))` pixels.
    */
    constructor (width: int, minLong: real, minLat: real, maxLong: real, maxLat: real)
      requires Frame(width, minLong, minLat, maxLong, maxLat).ValidSize()
      ensures Valid()
      ensures View() == Frame(width, minLong, minLat, maxLong, maxLat)
      ensures im == Blank(width, Trunc(View().Height()))
    {
      this.width := width;
      this.minLong := minLong;
      this.minLat := minLat;
      this.maxLong := maxLong;
      this.maxLat := maxLat;
      new;
      im := Blank(width, Trunc(View().Height()));
    }

    /**
      `Plot.draw_map(region)`: one black, unfilled polygon through the
      region's pixels. The imaging library refuses a polygon of fewer than
      two points (TypeError); the call then fails and draws nothing.
    */
    method DrawMap(region: Region) returns (ok: bool)
      requires Valid()
      requires region.coords != [] ==> minLat != maxLat
      modifies this
      ensures ok <==> |region.coords| >= 2
      ensures ok ==> im == old(im).Draw(Polygon(View().Outline(region), BLACK))
      ensures !ok ==> im == old(im)
    {
      var zl := Zip(View().TransLong(region), View().TransLat(region));
      if |zl| < 2 {
        return false;
      }
      im := im.Draw(Polygon(zl, BLACK));
      return true;
    }

    /**
      The drawing loop of `main_map`: `draw_map` on every region, in order,
      until one of them cannot be drawn. On success the image gains every
      outline; otherwise it gains the outlines of the regions before the first
      region of fewer than two points.
    */
    method DrawRegions(regions: seq<Region>) returns (ok: bool)
      requires Valid()
      requires minLat != maxLat
      modifies this
      ensures ok <==> AllDrawable(regions)
      ensures ok ==> im == old(im).DrawAll(Polygons(View(), regions))
      ensures !ok ==> exists k | 0 <= k < |regions| ::
        && |regions[k].coords| < 2
        && AllDrawable(regions[..k])
        && im == old(im).DrawAll(Polygons(View(), regions[..k]))
    {
      for i := 0 to |regions|
        invariant AllDrawable(regions[..i])
        invariant im == old(im).DrawAll(Polygons(View(), regions[..i]))
      {
        var drawn := DrawMap(regions[i]);
        if !drawn {
          return false;
        }
        assert regions[..i + 1][..i] == regions[..i];
        assert regions[..i + 1][i] == regions[i];
      }
      assert regions[..|regions|] == regions;
      return true;
    }
  }

  /**
    The pairs the comprehension of `main_map` takes from a row, starting at
    field x: `(line[x], mercator(line[x + 1]))` while `x < len(line) - 1`.
  */
  function PairsFrom(line: seq<real>, x: nat, mercator: real -> real): seq<Coord>
    decreases |line| - x
  {
    if x + 1 < |line| then [(line[x], mercator(line[x + 1]))] + PairsFrom(line, x + 2, mercator)
    else []
  }

  /** One boundary row's coordinates: fields 2, 4, ... paired with the projected field after each. */
  function ParseRow(line: seq<real>, mercator: real -> real): seq<Coord> {
    PairsFrom(line, 2, mercator)
  }

  /** Every row becomes one region, in row order. */
  function Regions(boundaries: seq<seq<real>>, mercator: real -> real): (regions: seq<Region>)
    ensures |regions| == |boundaries|
  {
    seq(|boundaries|, i requires 0 <= i < |boundaries| => Region(ParseRow(boundaries[i], mercator)))
  }

  predicate AllNonEmpty(regions: seq<Region>) {
    forall i | 0 <= i < |regions| :: regions[i].coords != []
  }

  /** Every region has the two points a polygon needs. */
  predicate AllDrawable(regions: seq<Region>) {
    forall i | 0 <= i < |regions| :: |regions[i].coords| >= 2
  }

  /** A geographic box (longitudes, projected latitudes). */
  datatype Box = Box(minLong: real, minLat: real, maxLong: real, maxLat: real)

  /** `long_min`, `lat_min`, `long_max`, `lat_max` of `main_map`: extrema of the per-region extrema. */
  function BoundingBox(regions: seq<Region>): Box
    requires regions != [] && AllNonEmpty(regions)
  {
    Box(MinOf(MinLongs(regions)), MinOf(MinLats(regions)), MaxOf(MaxLongs(regions)), MaxOf(MaxLats(regions)))
  }

  /** The ways `main_map` fails. */
  datatype MapError =
    | NoRegions      // max([]) over an empty boundary file: ValueError
    | EmptyRegion    // a row with fewer than two coordinate fields: min([]) / max([]), ValueError
    | ZeroLongSpan   // Plot.__init__ divides by long_max - long_min: ZeroDivisionError
    | NegativeSize   // Image.new with a negative size: ValueError
    | ZeroLatSpan    // draw_map interpolates over lat_min == lat_max: ZeroDivisionError
    | OnePointRegion // draw_map hands the imaging library a one-point polygon: TypeError

  /** The frame `main_map` gives its Plot, or the error it stops with. */
  function MapFrame(boundaries: seq<seq<real>>, width: int, mercator: real -> real): Result<Frame, MapError> {
    FrameFor(Regions(boundaries, mercator), width)
  }

  /**
    The checks `main_map` runs into once its regions are built, in the
    order Python raises them: extrema of an empty list, the divisions of
    `Plot.__init__`, the size `Image.new` refuses, then the first
    `draw_map`'s division and its polygon.
  */
  function FrameFor(regions: seq<Region>, width: int): (r: Result<Frame, MapError>)
    ensures r == Failure(EmptyRegion) <==> !AllNonEmpty(regions)
    ensures r == Failure(NoRegions) <==> regions == []
    ensures r == Failure(OnePointRegion) ==> !AllDrawable(regions)
    ensures r.Success? ==> AllNonEmpty(regions) && AllDrawable(regions) && r.value.width == width
    ensures r.Success? ==> r.value.minLong != r.value.maxLong && r.value.minLat != r.value.maxLat
  {
    if !AllNonEmpty(regions) then Failure(EmptyRegion)
    else if regions == [] then Failure(NoRegions)
    else
      var box := BoundingBox(regions);
      if box.maxLong - box.minLong == 0.0 then Failure(ZeroLongSpan)
      else if width < 0 then Failure(NegativeSize)
      else if box.maxLat == box.minLat then Failure(ZeroLatSpan)
      else if !AllDrawable(regions) then Failure(OnePointRegion)
      else Success(Frame(width, box.minLong, box.minLat, box.maxLong, box.maxLat))
  }


  /** The outlines `main_map` draws, one per region, in region order. */
  function Polygons(f: Frame, regions: seq<Region>): seq<DrawCmd>
    requires f.minLong != f.maxLong && f.minLat != f.maxLat
  {
    if regions == [] then []
    else Polygons(f, regions[..|regions| - 1]) + [Polygon(f.Outline(regions[|regions| - 1]), BLACK)]
  }

  /**
    A row of L >= 2 fields yields (L - 2) / 2 pairs, the k-th taken from
    fields 2 + 2k and 3 + 2k; a trailing unpaired field is ignored.
  */
  lemma {:induction false} PairsFromShape(line: seq<real>, x: nat, mercator: real -> real)
    requires x <= |line|
    ensures |PairsFrom(line, x, mercator)| == (|line| - x) / 2
    ensures forall k | 0 <= k < (|line| - x) / 2 ::
      PairsFrom(line, x, mercator)[k] == (line[x + 2 * k], mercator(line[x + 2 * k + 1]))
    decreases |line| - x
  {
    if x + 1 < |line| {
      PairsFromShape(line, x + 2, mercator);
      var rest := PairsFrom(line, x + 2, mercator);
      assert (|line| - (x + 2)) / 2 == (|line| - x) / 2 - 1;
      forall k | 1 <= k < (|line| - x) / 2
        ensures PairsFrom(line, x, mercator)[k] == (line[x + 2 * k], mercator(line[x + 2 * k + 1]))
      {
        assert x + 2 * k == (x + 2) + 2 * (k - 1);
        assert PairsFrom(line, x, mercator)[k] == rest[k - 1];
      }
    } else {
      assert |line| - x <= 1;
    }
  }

  lemma ParseRowShape(line: seq<real>, mercator: real -> real)
    ensures |ParseRow(line, mercator)| == if |line| < 2 then 0 else (|line| - 2) / 2
    ensures forall k | 0 <= k < |ParseRow(line, mercator)| ::
      ParseRow(line, mercator)[k] == (line[2 + 2 * k], mercator(line[3 + 2 * k]))
  {
    if |line| >= 2 {
      PairsFromShape(line, 2, mercator);
    }
  }

  /** The per-region extrema `main_map` takes the extrema of. */
  function MinLongs(regions: seq<Region>): (r: seq<real>)
    requires AllNonEmpty(regions)
    ensures |r| == |regions|
  {
    seq(|regions|, i requires 0 <= i < |regions| => regions[i].MinLong())
  }

  function MaxLongs(regions: seq<Region>): (r: seq<real>)
    requires AllNonEmpty(regions)
    ensures |r| == |regions|
  {
    seq(|regions|, i requires 0 <= i < |regions| => regions[i].MaxLong())
  }

  function MinLats(regions: seq<Region>): (r: seq<real>)
    requires AllNonEmpty(regions)
    ensures |r| == |regions|
  {
    seq(|regions|, i requires 0 <= i < |regions| => regions[i].MinLat())
  }

  function MaxLats(regions: seq<Region>): (r: seq<real>)
    requires AllNonEmpty(regions)
    ensures |r| == |regions|
  {
    seq(|regions|, i requires 0 <= i < |regions| => regions[i].MaxLat())
  }

  /** The bounding box contains every coordinate of every region. */
  lemma BoundingBoxContains(regions: seq<Region>)
    requires regions != [] && AllNonEmpty(regions)
    ensures forall i, j | 0 <= i < |regions| && 0 <= j < |regions[i].coords| ::
      BoundingBox(regions).minLong <= regions[i].coords[j].0 <= BoundingBox(regions).maxLong
    ensures forall i, j | 0 <= i < |regions| && 0 <= j < |regions[i].coords| ::
      BoundingBox(regions).minLat <= regions[i].coords[j].1 <= BoundingBox(regions).maxLat
    ensures BoundingBox(regions).minLong <= BoundingBox(regions).maxLong
    ensures BoundingBox(regions).minLat <= BoundingBox(regions).maxLat
  {
    var box := BoundingBox(regions);
    var minLongs, maxLongs := MinLongs(regions), MaxLongs(regions);
    var minLats, maxLats := MinLats(regions), MaxLats(regions);
    assert box == Box(MinOf(minLongs), MinOf(minLats), MaxOf(maxLongs), MaxOf(maxLats));
    forall i, j | 0 <= i < |regions| && 0 <= j < |regions[i].coords|
      ensures box.minLong <= regions[i].coords[j].0 <= box.maxLong
      ensures box.minLat <= regions[i].coords[j].1 <= box.maxLat
    {
      assert minLongs[i] in minLongs && maxLongs[i] in maxLongs;
      assert minLats[i] in minLats && maxLats[i] in maxLats;
    }
    assert 0 < |regions[0].coords|;
  }

  /** Each of the bounding box's four bounds is attained by some coordinate. */
  lemma BoundingBoxAttained(regions: seq<Region>)
    requires regions != [] && AllNonEmpty(regions)
    ensures exists i, j | 0 <= i < |regions| && 0 <= j < |regions[i].coords| ::
      regions[i].coords[j].0 == BoundingBox(regions).minLong
    ensures exists i, j | 0 <= i < |regions| && 0 <= j < |regions[i].coords| ::
      regions[i].coords[j].0 == BoundingBox(regions).maxLong
    ensures exists i, j | 0 <= i < |regions| && 0 <= j < |regions[i].coords| ::
      regions[i].coords[j].1 == BoundingBox(regions).minLat
    ensures exists i, j | 0 <= i < |regions| && 0 <= j < |regions[i].coords| ::
      regions[i].coords[j].1 == BoundingBox(regions).maxLat
  {
    var box := BoundingBox(regions);
    var minLongs, maxLongs := MinLongs(regions), MaxLongs(regions);
    var minLats, maxLats := MinLats(regions), MaxLats(regions);
    assert box == Box(MinOf(minLongs), MinOf(minLats), MaxOf(maxLongs), MaxOf(maxLats));
    var a :| 0 <= a < |regions| && minLongs[a] == box.minLong;
    var b :| 0 <= b < |regions| && maxLongs[b] == box.maxLong;
    var c :| 0 <= c < |regions| && minLats[c] == box.minLat;
    var d :| 0 <= d < |regions| && maxLats[d] == box.maxLat;
    var ja :| 0 <= ja < |regions[a].coords| && regions[a].coords[ja].0 == box.minLong;
    var jb :| 0 <= jb < |regions[b].coords| && regions[b].coords[jb].0 == box.maxLong;
    var jc :| 0 <= jc < |regions[c].coords| && regions[c].coords[jc].1 == box.minLat;
    var jd :| 0 <= jd < |regions[d].coords| && regions[d].coords[jd].1 == box.maxLat;
  }

  /** Once its longitude span is non-zero, the bounding box gives Plot.__init__ a valid image size. */
  lemma BoundingBoxSized(regions: seq<Region>, width: int)
    requires regions != [] && AllNonEmpty(regions) && 0 <= width
    ensures var box := BoundingBox(regions);
      box.maxLong - box.minLong != 0.0 ==> Frame(width, box.minLong, box.minLat, box.maxLong, box.maxLat).ValidSize()
  {
    var box := BoundingBox(regions);
    BoundingBoxContains(regions);
    if box.maxLong - box.minLong != 0.0 {
      HeightNonNegative(Frame(width, box.minLong, box.minLat, box.maxLong, box.maxLat));
    }
  }

  /**
    A successful build yields a non-degenerate frame whose box holds every
    parsed coordinate and whose image size is non-negative.
  */
  lemma MapFrameSound(boundaries: seq<seq<real>>, width: int, mercator: real -> real)
    ensures MapFrame(boundaries, width, mercator).Success? ==>
      var f := MapFrame(boundaries, width, mercator).value;
      && f.width == width
      && f.minLong < f.maxLong && f.minLat < f.maxLat
      && f.ValidSize()
      && forall i, j | 0 <= i < |boundaries| && 0 <= j < |Regions(boundaries, mercator)[i].coords| ::
           f.Contains(Regions(boundaries, mercator)[i].coords[j])
  {
    if MapFrame(boundaries, width, mercator).Success? {
      var regions := Regions(boundaries, mercator);
      BoundingBoxContains(regions);
      var f := MapFrame(boundaries, width, mercator).value;
      HeightNonNegative(f);
    }
  }

  /**
    The build fails with EmptyRegion exactly when some row has fewer than
    four fields, and with NoRegions exactly when there are no rows at all.
  */
  lemma MapFrameRowErrors(boundaries: seq<seq<real>>, width: int, mercator: real -> real)
    ensures MapFrame(boundaries, width, mercator) == Failure(EmptyRegion)
        <==> exists i | 0 <= i < |boundaries| :: |boundaries[i]| < 4
    ensures MapFrame(boundaries, width, mercator) == Failure(NoRegions) <==> boundaries == []
  {
    var regions := Regions(boundaries, mercator);
    forall i | 0 <= i < |boundaries|
      ensures regions[i].coords == [] <==> |boundaries[i]| < 4
    {
      ParseRowShape(boundaries[i], mercator);
    }
  }

  /**
    A one-point region stops the build only where a row has four or five
    fields, and a successful build has at least six fields in every row.
  */
  lemma MapFrameShortRows(boundaries: seq<seq<real>>, width: int, mercator: real -> real)
    ensures MapFrame(boundaries, width, mercator) == Failure(OnePointRegion) ==>
      exists i | 0 <= i < |boundaries| :: 4 <= |boundaries[i]| < 6
    ensures MapFrame(boundaries, width, mercator).Success? ==>
      forall i | 0 <= i < |boundaries| :: 6 <= |boundaries[i]|
  {
    var regions := Regions(boundaries, mercator);
    forall i | 0 <= i < |boundaries|
      ensures regions[i].coords != [] <==> |boundaries[i]| >= 4
      ensures |regions[i].coords| >= 2 <==> |boundaries[i]| >= 6
    {
      ParseRowShape(boundaries[i], mercator);
    }
  }

  /**
    The reading loops of `main_map`: each row's pairs are appended to
    `coords`, then each entry of `coords` becomes a Region.
  */
  method ParseBoundaries(boundaries: seq<seq<real>>, mercator: real -> real) returns (allRegions: seq<Region>)
    ensures allRegions == Regions(boundaries, mercator)
  {
    var coords: seq<seq<Coord>> := [];
    for i := 0 to |boundaries|
      invariant |coords| == i
      invariant forall j | 0 <= j < i :: coords[j] == ParseRow(boundaries[j], mercator)
    {
      coords := coords + [ParseRow(boundaries[i], mercator)];
    }
    allRegions := [];
    for i := 0 to |coords|
      invariant |allRegions| == i
      invariant forall j | 0 <= j < i :: allRegions[j] == Region(coords[j])
    {
      allRegions := allRegions + [Region(coords[i])];
    }

  }

  /**
    `main_map`: parse every row, build the regions, take their bounding box,
    create the Plot and outline every region on it. The CSV file becomes the
    list of rows, and saving the image is not modelled.
  */
  method MainMap(boundaries: seq<seq<real>>, width: int, mercator: real -> real)
    returns (result: Result<Plot, MapError>)
    ensures result.Failure? ==> MapFrame(boundaries, width, mercator) == Failure(result.error)
    ensures result.Success? ==>
      && MapFrame(boundaries, width, mercator) == Success(result.value.View())
      && fresh(result.value)
      && result.value.Valid()
      && result.value.im == Blank(width, Trunc(result.value.View().Height()))
                              .DrawAll(Polygons(result.value.View(), Regions(boundaries, mercator)))
  {
    var allRegions := ParseBoundaries(boundaries, mercator);
    ghost var expected := MapFrame(boundaries, width, mercator);
    if !AllNonEmpty(allRegions) {
      assert expected == Failure(EmptyRegion);
      return Failure(EmptyRegion);
    }
    if allRegions == [] {
      assert expected == Failure(NoRegions);
      return Failure(NoRegions);
    }
    var box := BoundingBox(allRegions);
    if box.maxLong - box.minLong == 0.0 {
      assert expected == Failure(ZeroLongSpan);
      return Failure(ZeroLongSpan);
    }
    if width < 0 {
      assert expected == Failure(NegativeSize);
      return Failure(NegativeSize);
    }
    BoundingBoxSized(allRegions, width);
    var p := new Plot(width, box.minLong, box.minLat, box.maxLong, box.maxLat);
    if box.maxLat == box.minLat {
      assert expected == Failure(ZeroLatSpan);
      return Failure(ZeroLatSpan);
    }
    ghost var f := p.View();
    var drawn := p.DrawRegions(allRegions);
    if !drawn {
      assert expected == Failure(OnePointRegion);
      return Failure(OnePointRegion);
    }
    assert expected == Success(f);
    return Success(p);
  }
}
