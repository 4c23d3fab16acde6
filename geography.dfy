/**
  Class Region of statedraw.py and the coordinate transforms of class Plot:
  how a region's (longitude, latitude) pairs become pixel positions on an
  image whose geographic bounding box and width are fixed.
*/
module Geography {
  import opened Projection
  import opened Canvas

  /** A (longitude, latitude) pair, as the tuples of `Region.coords`. */
  type Coord = (real, real)

  /** Python's `zip`: pairs up to the shorter of the two lists. */
  function Zip<A, B>(xs: seq<A>, ys: seq<B>): seq<(A, B)> {
    var n := if |xs| <= |ys| then |xs| else |ys|;
    seq(n, i requires 0 <= i < n => (xs[i], ys[i]))
  }

  datatype Region = Region(coords: seq<Coord>) {
    /** `Region.longs()` */
    function Longs(): (r: seq<real>)
      ensures |r| == |coords|
    {
      seq(|coords|, i requires 0 <= i < |coords| => coords[i].0)
    }

    /** `Region.lats()` */
    function Lats(): (r: seq<real>)
      ensures |r| == |coords|
    {
      seq(|coords|, i requires 0 <= i < |coords| => coords[i].1)
    }

    /** `Region.min_long()`; Python raises ValueError on an empty region. */
    function MinLong(): (m: real)
      requires coords != []
      ensures exists i | 0 <= i < |coords| :: coords[i].0 == m
      ensures forall i | 0 <= i < |coords| :: m <= coords[i].0
    {
      var longs := Longs();
      var m := MinOf(longs);
      assert forall i | 0 <= i < |coords| :: longs[i] in longs && longs[i] == coords[i].0;
      assert forall i | 0 <= i < |coords| :: m <= longs[i];
      m
    }

    /** `Region.max_long()` */
    function MaxLong(): (m: real)
      requires coords != []
      ensures exists i | 0 <= i < |coords| :: coords[i].0 == m
      ensures forall i | 0 <= i < |coords| :: coords[i].0 <= m
    {
      var longs := Longs();
      var m := MaxOf(longs);
      assert forall i | 0 <= i < |coords| :: longs[i] in longs && longs[i] == coords[i].0;
      assert forall i | 0 <= i < |coords| :: longs[i] <= m;
      m
    }

    /** `Region.min_lat()` */
    function MinLat(): (m: real)
      requires coords != []
      ensures exists i | 0 <= i < |coords| :: coords[i].1 == m
      ensures forall i | 0 <= i < |coords| :: m <= coords[i].1
    {
      var lats := Lats();
      var m := MinOf(lats);
      assert forall i | 0 <= i < |coords| :: lats[i] in lats && lats[i] == coords[i].1;
      assert forall i | 0 <= i < |coords| :: m <= lats[i];
      m
    }

    /** `Region.max_lat()` */
    function MaxLat(): (m: real)
      requires coords != []
      ensures exists i | 0 <= i < |coords| :: coords[i].1 == m
      ensures forall i | 0 <= i < |coords| :: coords[i].1 <= m
    {
      var lats := Lats();
      var m := MaxOf(lats);
      assert forall i | 0 <= i < |coords| :: lats[i] in lats && lats[i] == coords[i].1;
      assert forall i | 0 <= i < |coords| :: lats[i] <= m;
      m
    }
  }

  /** Splitting a region into its longitudes and latitudes loses nothing. */
  lemma ZipLongsLats(region: Region)
    ensures Zip(region.Longs(), region.Lats()) == region.coords
  {
    var z := Zip(region.Longs(), region.Lats());
    assert |z| == |region.coords|;
    forall i | 0 <= i < |z|
      ensures z[i] == region.coords[i]
    {
    }
  }

  /**
    The fields of a Plot: the image width and the geographic bounding box
    (latitudes already Mercator-projected by the caller).
  */
  datatype Frame = Frame(width: int, minLong: real, minLat: real, maxLong: real, maxLat: real) {
    /** The image height: `proportional_height(width, long span, lat span)`. */
    function Height(): real
      requires minLong != maxLong
    {
      ProportionalHeight(width as real, maxLong - minLong, maxLat - minLat)
    }

    /** Plot.__init__ can create its image: no division by zero, no negative size. */
    predicate ValidSize() {
      minLong != maxLong && 0 <= width && 0 <= Trunc(Height())
    }

    /** The pixel column of one longitude, as in `trans_long`. */
    function X(long: real): real
      requires minLong != maxLong
    {
      Interpolate(long, minLong, maxLong, width as real)
    }

    /** The pixel row of one (projected) latitude, as in `trans_lat`. */
    function Y(lat: real): real
      requires minLong != maxLong && minLat != maxLat
    {
      Height() - Interpolate(lat, minLat, maxLat, Height())
    }

    /** `Plot.trans_long(region)` */
    function TransLong(region: Region): (xs: seq<real>)
      requires region.coords != [] ==> minLong != maxLong
      ensures |xs| == |region.coords|
    {
      var longs := region.Longs();
      seq(|longs|, i requires 0 <= i < |longs| => X(longs[i]))
    }

    /** `Plot.trans_lat(region)` */
    function TransLat(region: Region): (ys: seq<real>)
      requires region.coords != [] ==> minLong != maxLong && minLat != maxLat
      ensures |ys| == |region.coords|
    {
      var lats := region.Lats();
      seq(|lats|, i requires 0 <= i < |lats| => Y(lats[i]))
    }

    /** The polygon `draw_map` passes to the imaging library: `zip(trans_long, trans_lat)`. */
    function Outline(region: Region): seq<Pixel>
      requires region.coords != [] ==> minLong != maxLong && minLat != maxLat
    {
      Zip(TransLong(region), TransLat(region))
    }

    /** The coordinate lies in the bounding box, bounds included. */
    predicate Contains(c: Coord) {
      minLong <= c.0 <= maxLong && minLat <= c.1 <= maxLat
    }
  }

  /** With a non-degenerate box the image height is non-negative. */
  lemma HeightNonNegative(f: Frame)
    requires f.minLong < f.maxLong && f.minLat <= f.maxLat && 0 <= f.width
    ensures 0.0 <= f.Height()
  {
    var h := f.Height();
    var t := (f.maxLat - f.minLat) / (f.maxLong - f.minLong);
    assert h * (f.maxLong - f.minLong) == (t * (f.width as real)) * (f.maxLong - f.minLong);
    assert h == t * (f.width as real);
    assert 0.0 <= t;
  }

  /** `trans_long` sends the box's west edge to column 0 and its east edge to column `width`. */
  lemma TransLongEnds(f: Frame)
    requires f.minLong != f.maxLong
    ensures f.X(f.minLong) == 0.0
    ensures f.X(f.maxLong) == f.width as real
  {
    InterpolateEndpoints(f.minLong, f.maxLong, f.width as real);
  }

  /**
    `trans_lat` flips the vertical axis: the box's south edge goes to row
    Height() (the bottom) and its north edge to row 0 (the top).
  */
  lemma TransLatEnds(f: Frame)
    requires f.minLong != f.maxLong && f.minLat != f.maxLat
    ensures f.Y(f.minLat) == f.Height()
    ensures f.Y(f.maxLat) == 0.0
  {
    InterpolateEndpoints(f.minLat, f.maxLat, f.Height());
  }

  /** `trans_long` keeps the region's order and its longitudes' relative order. */
  lemma TransLongOrder(f: Frame, region: Region, i: int, j: int)
    requires f.minLong < f.maxLong && 0 <= f.width
    requires 0 <= i < |region.coords| && 0 <= j < |region.coords|
    requires region.coords[i].0 <= region.coords[j].0
    ensures f.TransLong(region)[i] == f.X(region.coords[i].0)
    ensures f.TransLong(region)[i] <= f.TransLong(region)[j]
  {
    InterpolateMonotone(region.coords[i].0, region.coords[j].0, f.minLong, f.maxLong, f.width as real);
  }

  /** `trans_lat` reverses the latitudes' relative order (north is up). */
  lemma TransLatOrder(f: Frame, region: Region, i: int, j: int)
    requires f.minLong < f.maxLong && f.minLat < f.maxLat && 0 <= f.width
    requires 0 <= i < |region.coords| && 0 <= j < |region.coords|
    requires region.coords[i].1 <= region.coords[j].1
    ensures f.TransLat(region)[i] == f.Y(region.coords[i].1)
    ensures f.TransLat(region)[j] <= f.TransLat(region)[i]
  {
    HeightNonNegative(f);
    InterpolateMonotone(region.coords[i].1, region.coords[j].1, f.minLat, f.maxLat, f.Height());
  }

  /**
    The outline of a region lying in the box is its coordinates, in order,
    each sent to a pixel inside the width x Height() image.
  */
  lemma OutlineInside(f: Frame, region: Region)
    requires f.minLong < f.maxLong && f.minLat < f.maxLat && 0 <= f.width
    requires forall i | 0 <= i < |region.coords| :: f.Contains(region.coords[i])
    ensures |f.Outline(region)| == |region.coords|
    ensures forall i | 0 <= i < |region.coords| ::
      f.Outline(region)[i] == (f.X(region.coords[i].0), f.Y(region.coords[i].1))
    ensures forall i | 0 <= i < |region.coords| ::
      && 0.0 <= f.Outline(region)[i].0 <= f.width as real
      && 0.0 <= f.Outline(region)[i].1 <= f.Height()
  {
    HeightNonNegative(f);
    var outline := f.Outline(region);
    forall i | 0 <= i < |region.coords|
      ensures outline[i] == (f.X(region.coords[i].0), f.Y(region.coords[i].1))
      ensures 0.0 <= outline[i].0 <= f.width as real
      ensures 0.0 <= outline[i].1 <= f.Height()
    {
      var c := region.coords[i];
      InterpolateWithin(c.0, f.minLong, f.maxLong, f.width as real);
      InterpolateWithin(c.1, f.minLat, f.maxLat, f.Height());
    }
  }

  /**
    Projecting the box's south-west and north-east corners gives back the
    image's own corners: (0, Height()) and (width, 0).
  */
  lemma CornersRoundTrip(f: Frame)
    requires f.minLong != f.maxLong && f.minLat != f.maxLat
    ensures f.Outline(Region([(f.minLong, f.minLat), (f.maxLong, f.maxLat)]))
         == [(0.0, f.Height()), (f.width as real, 0.0)]
  {
    TransLongEnds(f);
    TransLatEnds(f);
    var corners := Region([(f.minLong, f.minLat), (f.maxLong, f.maxLat)]);
    assert f.TransLong(corners) == [0.0, f.width as real];
    assert f.TransLat(corners) == [f.Height(), 0.0];
  }
}
