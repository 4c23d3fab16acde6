/**
  Class DetailPlot of full.py: the overlay that places schools on the base
  map, marks them, and draws each professor's chain of degrees as connected
  line segments walking back from a fixed anchor.
*/
module Details {
  import opened Wrappers
  import opened Projection
  import opened Canvas
  import opened Geography
  import opened Dicts
  import opened Degrees
  import StateDraw

  /** An Institution's geocoded position, `lat()` and `lon()` (latitude not projected). */
  datatype Location = Location(lat: real, lon: real)

  /** An entry of `_schoolcoords`: a pixel pair, or the sentinel "N/A". */
  datatype Placement = NotAvailable | At(pixel: Pixel)

  /** The hard-coded start of every connector path, used as a pixel pair exactly as written. */
  const ANCHOR: Pixel := (42.71280, -73.20302140000001)

  /** The inclusive bounds test of `translate_coordinates`, on the raw latitude. */
  predicate InBounds(f: Frame, loc: Location) {
    f.minLong <= loc.lon <= f.maxLong && f.minLat <= loc.lat <= f.maxLat
  }

  /**
    The entry `translate_coordinates` stores for one school: the first pixel
    of the one-point region (lon, mercator(lat)) when the school is inside the
    bounds, "N/A" otherwise.
  */
  function Place(f: Frame, loc: Location, mercator: real -> real): (p: Placement)
    requires f.minLong != f.maxLong
    requires InBounds(f, loc) ==> f.minLat != f.maxLat
    ensures p.NotAvailable? <==> !InBounds(f, loc)
    ensures p.At? ==> p.pixel == (f.X(loc.lon), f.Y(mercator(loc.lat)))
  {
    if InBounds(f, loc) then At(OnePoint(f, loc.lon, mercator(loc.lat))) else NotAvailable
  }

  /**
    The pixel of a one-point region: `(trans_long(r)[0], trans_lat(r)[0])`
    is the column of the longitude and the row of the projected latitude.
  */
  function OnePoint(f: Frame, long: real, lat: real): (p: Pixel)
    requires f.minLong != f.maxLong && f.minLat != f.maxLat
    ensures p == (f.X(long), f.Y(lat))
  {
    var r := Region([(long, lat)]);
    (f.TransLong(r)[0], f.TransLat(r)[0])
  }

  /** An in-bounds school's pixel column lies within the image width. */
  lemma PlacedWithinWidth(f: Frame, loc: Location, mercator: real -> real)
    requires f.minLong < f.maxLong && 0 <= f.width
    requires InBounds(f, loc) ==> f.minLat != f.maxLat
    ensures Place(f, loc, mercator).At? ==> 0.0 <= Place(f, loc, mercator).pixel.0 <= f.width as real
  {
    if InBounds(f, loc) {
      InterpolateWithin(loc.lon, f.minLong, f.maxLong, f.width as real);
    }
  }

  /** Whether the lookup `_schoolcoords[school]` succeeds and is not "N/A". */
  predicate IsPlaced(entries: map<string, Placement>, school: string) {
    school in entries && entries[school].At?
  }

  /**
    What `translate_coordinates` needs of the frame and the directory: a
    longitude span to divide by, and a latitude span for every school it
    places.
  */
  ghost predicate Placeable(f: Frame, directory: Dict<string, Location>) {
    && directory.Valid()
    && f.minLong != f.maxLong
    && forall k | k in directory.entries :: InBounds(f, directory.entries[k]) ==> f.minLat != f.maxLat
  }

  /** The table after `translate_coordinates` has written the first n schools of the directory. */
  function PlaceAll(table: Dict<string, Placement>, directory: Dict<string, Location>, n: nat,
                    f: Frame, mercator: real -> real): (t: Dict<string, Placement>)
    requires Placeable(f, directory) && n <= |directory.keys|
    ensures table.Valid() ==> t.Valid()
  {
    if n == 0 then table
    else
      var school := directory.keys[n - 1];
      PlaceAll(table, directory, n - 1, f, mercator).Put(school, Place(f, directory.entries[school], mercator))
  }

  /** After the table has written n schools, each of them holds its own placement. */
  lemma {:induction false} PlaceAllPlaced(table: Dict<string, Placement>, directory: Dict<string, Location>,
                                          n: nat, f: Frame, mercator: real -> real)
    requires Placeable(f, directory) && n <= |directory.keys|
    ensures var t := PlaceAll(table, directory, n, f, mercator);
      forall i | 0 <= i < n ::
        directory.keys[i] in t.entries
        && t.entries[directory.keys[i]] == Place(f, directory.entries[directory.keys[i]], mercator)
  {
    if n > 0 {
      PlaceAllPlaced(table, directory, n - 1, f, mercator);
      var school := directory.keys[n - 1];
      var before := PlaceAll(table, directory, n - 1, f, mercator);
      var t := PlaceAll(table, directory, n, f, mercator);
      assert t.entries == before.entries[school := Place(f, directory.entries[school], mercator)];
      forall i | 0 <= i < n - 1
        ensures directory.keys[i] in t.entries
        ensures t.entries[directory.keys[i]] == Place(f, directory.entries[directory.keys[i]], mercator)
      {
        if directory.keys[i] != school {
          assert t.entries[directory.keys[i]] == before.entries[directory.keys[i]];
        }
      }
    }
  }

  /**
    After the table has written n schools, every other entry is as before
    and no key other than the table's and those n appears.
  */
  lemma {:induction false} PlaceAllOthers(table: Dict<string, Placement>, directory: Dict<string, Location>,
                                          n: nat, f: Frame, mercator: real -> real)
    requires Placeable(f, directory) && n <= |directory.keys|
    ensures var t := PlaceAll(table, directory, n, f, mercator);
      forall k | k in table.entries && k !in directory.keys[..n] :: k in t.entries && t.entries[k] == table.entries[k]
    ensures var t := PlaceAll(table, directory, n, f, mercator);
      forall k | k in t.entries :: k in table.entries || k in directory.keys[..n]
  {
    if n > 0 {
      PlaceAllOthers(table, directory, n - 1, f, mercator);
      assert directory.keys[..n] == directory.keys[..n - 1] + [directory.keys[n - 1]];
    }
  }

  /**
    `translate_coordinates` gives every school of the directory its own
    placement: "N/A" exactly when the school is outside the inclusive bounds.
  */
  lemma TranslatedSchools(table: Dict<string, Placement>, directory: Dict<string, Location>,
                          f: Frame, mercator: real -> real)
    requires Placeable(f, directory)
    ensures var t := PlaceAll(table, directory, |directory.keys|, f, mercator);
      forall k | k in directory.entries ::
        && k in t.entries
        && t.entries[k] == Place(f, directory.entries[k], mercator)
        && (t.entries[k].NotAvailable? <==> !InBounds(f, directory.entries[k]))
  {
    var n := |directory.keys|;
    PlaceAllPlaced(table, directory, n, f, mercator);
    forall k | k in directory.entries
      ensures var t := PlaceAll(table, directory, n, f, mercator);
        k in t.entries && t.entries[k] == Place(f, directory.entries[k], mercator)
    {
      var i :| 0 <= i < n && directory.keys[i] == k;
    }
  }

  /**
    `translate_coordinates` adds exactly the directory's schools to the
    table's keys and leaves the entries of other schools alone.
  */
  lemma TranslatedOthersUnchanged(table: Dict<string, Placement>, directory: Dict<string, Location>,
                                  f: Frame, mercator: real -> real)
    requires Placeable(f, directory)
    ensures var t := PlaceAll(table, directory, |directory.keys|, f, mercator);
      && t.entries.Keys == table.entries.Keys + directory.entries.Keys
      && forall k | k in table.entries && k !in directory.entries :: t.entries[k] == table.entries[k]
  {
    var n := |directory.keys|;
    PlaceAllPlaced(table, directory, n, f, mercator);
    PlaceAllOthers(table, directory, n, f, mercator);
    assert directory.keys[..n] == directory.keys;
    var t := PlaceAll(table, directory, n, f, mercator);
    forall k | k in t.entries ensures k in table.entries || k in directory.entries {
      assert k in table.entries || k in directory.keys;
    }
    forall k | k in directory.entries ensures k in t.entries {
      var i :| 0 <= i < n && directory.keys[i] == k;
    }
  }

  /** The ellipse `school_pts` draws around a pixel: box corners (cx+5, cy+5) and (cx-5, cy-5). */
  function Marker(center: Pixel): DrawCmd {
    Ellipse((center.0 + 5.0, center.1 + 5.0), (center.0 - 5.0, center.1 - 5.0), BLACK)
  }

  /** The markers `school_pts` draws for the listed schools, in table order. */
  function Markers(keys: seq<string>, entries: map<string, Placement>): seq<DrawCmd>
    requires forall k | k in keys :: k in entries
  {
    if keys == [] then []
    else
      var last := keys[|keys| - 1];
      Markers(keys[..|keys| - 1], entries) + if entries[last].At? then [Marker(entries[last].pixel)] else []
  }

  /** The listed schools that have a pixel position. */
  ghost function PlacedSchools(keys: seq<string>, entries: map<string, Placement>): set<string> {
    set k | k in keys && IsPlaced(entries, k)
  }

  /** `school_pts` draws exactly one marker per placed school and none for "N/A" entries. */
  lemma {:induction false} MarkersCount(keys: seq<string>, entries: map<string, Placement>)
    requires forall k | k in keys :: k in entries
    requires forall i, j | 0 <= i < j < |keys| :: keys[i] != keys[j]
    ensures |Markers(keys, entries)| == |PlacedSchools(keys, entries)|
  {
    if keys != [] {
      var front, last := keys[..|keys| - 1], keys[|keys| - 1];
      MarkersCount(front, entries);
      assert keys == front + [last];
      var placed, before := PlacedSchools(keys, entries), PlacedSchools(front, entries);
      forall k | k in placed && k != last ensures k in before {
        assert k in front;
      }
      assert last !in before by {
        forall i | 0 <= i < |front| ensures front[i] != last {
          assert keys[i] != keys[|keys| - 1];
        }
      }
      if entries[last].At? {
        assert placed == before + {last};
      } else {
        assert placed == before;
      }
    }
  }

  /** Every placed school's marker is drawn, and every drawn command is the marker of a placed school. */
  lemma {:induction false} MarkersMatchSchools(keys: seq<string>, entries: map<string, Placement>)
    requires forall k | k in keys :: k in entries
    ensures forall k | k in keys && entries[k].At? :: Marker(entries[k].pixel) in Markers(keys, entries)
    ensures forall c | c in Markers(keys, entries) ::
      exists k | k in keys && entries[k].At? :: c == Marker(entries[k].pixel)
  {
    if keys != [] {
      var front, last := keys[..|keys| - 1], keys[|keys| - 1];
      MarkersMatchSchools(front, entries);
      assert keys == front + [last];
      forall c | c in Markers(keys, entries)
        ensures exists k | k in keys && entries[k].At? :: c == Marker(entries[k].pixel)
      {
        if c in Markers(front, entries) {
          var k :| k in front && entries[k].At? && c == Marker(entries[k].pixel);
          assert k in keys;
        } else {
          assert entries[last].At? && c == Marker(entries[last].pixel);
        }
      }
    }
  }

  /** `point1`, or the anchor when it is None. */
  function Start(point1: Option<Pixel>): Pixel {
    if point1.Some? then point1.value else ANCHOR
  }

  /** The blue, 5-pixel-wide line `draw_connections` draws between two points. */
  function Segment(a: Pixel, b: Pixel): DrawCmd {
    Line(a, b, BLUE, 5)
  }

  /** How many degrees `draw_connections` pops: the trailing run of placed schools. */
  function Run(entries: map<string, Placement>, items: seq<Degree>): (n: nat)
    ensures n <= |items|
  {
    if items == [] then 0
    else if IsPlaced(entries, items[|items| - 1].school) then 1 + Run(entries, items[..|items| - 1])
    else 0
  }

  /** The segments `draw_connections` draws, starting at `from` and walking the list from its end. */
  function Path(entries: map<string, Placement>, items: seq<Degree>, from: Pixel): seq<DrawCmd> {
    if items == [] then []
    else
      var school := items[|items| - 1].school;
      if IsPlaced(entries, school) then
        [Segment(from, entries[school].pixel)] + Path(entries, items[..|items| - 1], entries[school].pixel)
      else []
  }

  /** The walk ends on a missing school: `_schoolcoords[...]` raises KeyError there. */
  predicate StopsOnMissing(entries: map<string, Placement>, items: seq<Degree>) {
    Run(entries, items) < |items| && items[|items| - 1 - Run(entries, items)].school !in entries
  }

  /**
    The consumed degrees are exactly the longest suffix of the list whose
    schools are placed: each of them is placed, and the degree just before
    them (if any) is "N/A" or missing.
  */
  lemma {:induction false} RunIsLongestPlacedSuffix(entries: map<string, Placement>, items: seq<Degree>)
    ensures forall j | |items| - Run(entries, items) <= j < |items| :: IsPlaced(entries, items[j].school)
    ensures Run(entries, items) < |items| ==>
      !IsPlaced(entries, items[|items| - 1 - Run(entries, items)].school)
  {
    if items != [] && IsPlaced(entries, items[|items| - 1].school) {
      var front := items[..|items| - 1];
      RunIsLongestPlacedSuffix(entries, front);
      assert forall j | |items| - Run(entries, items) <= j < |items| - 1 :: items[j] == front[j];
    }
  }

  /**
    The path walks the list last to first: segment 0 runs from the start
    point to the last degree's school, and segment i from the school of
    degree n-i to that of degree n-1-i; there is one segment per consumed
    degree.
  */
  lemma {:induction false} PathWalksBackwards(entries: map<string, Placement>, items: seq<Degree>, from: Pixel)
    ensures |Path(entries, items, from)| == Run(entries, items)
    ensures forall i | 0 <= i < Run(entries, items) ::
      && IsPlaced(entries, items[|items| - 1 - i].school)
      && (0 < i ==> IsPlaced(entries, items[|items| - i].school))
      && Path(entries, items, from)[i] == Segment(
           if i == 0 then from else entries[items[|items| - i].school].pixel,
           entries[items[|items| - 1 - i].school].pixel)
  {
    RunIsLongestPlacedSuffix(entries, items);
    if items != [] && IsPlaced(entries, items[|items| - 1].school) {
      var n := |items|;
      var front := items[..n - 1];
      var p := entries[items[n - 1].school].pixel;
      PathWalksBackwards(entries, front, p);
      var path := Path(entries, items, from);
      forall i | 1 <= i < Run(entries, items)
        ensures path[i] == Segment(entries[items[n - i].school].pixel, entries[items[n - 1 - i].school].pixel)
      {
        assert path[i] == Path(entries, front, p)[i - 1];
        assert front[n - 1 - i] == items[n - 1 - i];
        if i > 1 {
          assert front[(n - 1) - (i - 1)] == items[n - i];
        }
      }
    }
  }

  class DetailPlot {
    const width: int
    const minLong: real
    const minLat: real
    const maxLong: real
    const maxLat: real
    /** `self.im`: the blank image Plot.__init__ creates; connectors go here. */
    var im: Image
    /** `self._im`: the saved base map, reopened; markers go here. */
    var mapIm: Image
    var colors: map<string, Color>
    /** `self._schoolcoords` */
    var schoolCoords: Dict<string, Placement>

    function View(): Frame {
      Frame(width, minLong, minLat, maxLong, maxLat)
    }

    ghost predicate Valid()
      reads this
    {
      View().ValidSize() && schoolCoords.Valid()
    }

    /**
      `DetailPlot(obj, mapfile)`: opens the saved base map, starts with an
      empty table and takes over obj's frame through Plot.__init__.
    */
    constructor (obj: StateDraw.Plot, mapImage: Image)
      requires obj.Valid()
      ensures Valid()
      ensures View() == obj.View()
      ensures mapIm == mapImage && colors == map[] && schoolCoords == Empty()
      ensures im == Blank(obj.width, Trunc(obj.View().Height()))
    {
      mapIm := mapImage;
      colors := map[];
      schoolCoords := Empty();
      width := obj.width;
      minLong := obj.minLong;
      minLat := obj.minLat;
      maxLong := obj.maxLong;
      maxLat := obj.maxLat;
      new;
      im := Blank(width, Trunc(View().Height()));
    }

    /** `translate_coordinates(directory)`: one table write per school, in directory order. */
    method TranslateCoordinates(directory: Dict<string, Location>, mercator: real -> real)
      requires Valid() && Placeable(View(), directory)
      modifies this`schoolCoords
      ensures Valid()
      ensures schoolCoords == PlaceAll(old(schoolCoords), directory, |directory.keys|, View(), mercator)
    {
      for i := 0 to |directory.keys|
        invariant schoolCoords == PlaceAll(old(schoolCoords), directory, i, View(), mercator)
      {
        var school := directory.keys[i];
        PlaceSchool(school, directory.entries[school], mercator);
      }
    }

    /** One pass of the loop of `translate_coordinates`: store the school's pixel or "N/A". */
    method PlaceSchool(school: string, loc: Location, mercator: real -> real)
      requires minLong != maxLong
      requires InBounds(View(), loc) ==> minLat != maxLat
      modifies this`schoolCoords
      ensures schoolCoords == old(schoolCoords).Put(school, Place(View(), loc, mercator))
    {
      var longitude := loc.lon;
      var latitude := loc.lat;
      var entry: Placement;
      if minLong <= longitude <= maxLong && minLat <= latitude <= maxLat {
        entry := At(OnePoint(View(), longitude, mercator(latitude)));
      } else {
        entry := NotAvailable;
      }
      schoolCoords := schoolCoords.Put(school, entry);
    }

    /** `school_pts()`: a black marker on the base map for every placed school, in table order. */
    method SchoolPts()
      requires Valid()
      modifies this`mapIm
      ensures mapIm == old(mapIm).DrawAll(Markers(schoolCoords.keys, schoolCoords.entries))
    {
      var keys := schoolCoords.keys;
      for i := 0 to |keys|
        invariant mapIm == old(mapIm).DrawAll(Markers(keys[..i], schoolCoords.entries))
      {
        assert keys[..i + 1][..i] == keys[..i];
        var school := keys[i];
        if schoolCoords.entries[school] != NotAvailable {
          var center := schoolCoords.entries[school].pixel;
          mapIm := mapIm.Draw(Ellipse((center.0 + 5.0, center.1 + 5.0), (center.0 - 5.0, center.1 - 5.0), BLACK));
        }
      }
      assert keys[..|keys|] == keys;
    }

    /**
      `draw_connections(source, directory, point1)`: while the last degree's
      school is placed, pop it and draw a segment to it from the current
      point, which then moves there. Stops at an empty list or an "N/A" school
      (left in the list); `ok` is false when a school is missing from the
      table (Python's KeyError). The unused `directory` argument is dropped.
    */
    method DrawConnections(source: DegreeList, point1: Option<Pixel>) returns (ok: bool)
      modifies this`im, source
      decreases |source.items|
      ensures source.items == old(source.items)[..|old(source.items)| - Run(schoolCoords.entries, old(source.items))]
      ensures im == old(im).DrawAll(Path(schoolCoords.entries, old(source.items), Start(point1)))
      ensures ok <==> !StopsOnMissing(schoolCoords.entries, old(source.items))
    {
      var d := source;
      if |d.items| > 0 {
        var p1 := if point1.None? then ANCHOR else point1.value;
        var school := d.items[|d.items| - 1].school;
        if school !in schoolCoords.entries {
          return false;
        }
        if schoolCoords.entries[school] != NotAvailable {
          var popped := d.Pop();
          var p2 := schoolCoords.entries[popped.school].pixel;
          im := im.Draw(Segment(p1, p2));
          ok := DrawConnections(d, Some(p2));
        } else {
          ok := true;
        }
      } else {
        ok := true;
      }
    }
  }
}
