# Faculty degree map — a Dafny model

This project models the core of a small Python program that draws a map of
where a college's professors earned their degrees. It has two parts.

- `statedraw.py` draws the base map. It reads boundary rows of longitude and
  latitude fields and projects each latitude with Mercator. Each row becomes
  a `Region`. The program takes the union bounding box, sizes a white image
  proportionally in a `Plot`, and outlines every region as a black polygon.
- `full.py` draws the overlay. `DetailPlot` takes over the base map's frame,
  places every school of a directory on it (or stores "N/A"), marks the placed
  schools with dots, and draws each professor's chain of degrees as blue
  segments. The chain walks backwards from a fixed anchor and stops at the
  first school that is not placed. `main_details` tallies, per school,
  department and degree level, how many degrees were found. `extension_is_valid`
  decides which profile links are not media files.

The model is in these files and modules:

| file | module | models |
|---|---|---|
| `wrappers.dfy` | `Wrappers` | `Option` and `Result` |
| `canvas.dfy` | `Canvas` | an image as its size, its background and the log of drawing commands made on it |
| `dicts.dfy` | `Dicts` | a Python dictionary with its insertion order |
| `projection.dfy` | `Projection` | `interpolate`, `proportional_height`, `int()`, `max` and `min` |
| `geography.dfy` | `Geography` | `Region` and the coordinate transforms of a plot frame |
| `statedraw.dfy` | `StateDraw` | class `Plot` and `main_map` |
| `degrees.dfy` | `Degrees` | `Degree` and the degree list that `draw_connections` pops |
| `detailplot.dfy` | `Details` | class `DetailPlot` |
| `urlfilter.dfy` | `UrlFilter` | `extension_is_valid` |
| `tally.dfy` | `DegreeTally` | the degree tally loop of `main_details` |

Modelling choices:

- `mercator` is a parameter of type `real -> real`. No property of it is
  assumed.
- Plots are classes whose frame fields are constants. Their images are fields
  that the drawing methods reassign.
- Every exception these paths raise on their own becomes an explicit
  outcome. In `main_map` that outcome is a `MapError`. In `draw_connections`
  it is an `ok` result that is false. In the tally it is a `TallyError`. Two
  are not among them, and "Left out" lists both: the exceptions `mercator`
  can raise, and the reversed ellipse box that newer Pillow releases refuse.

Behaviour of the code worth knowing, which the model reproduces:

- `interpolate` is not inverted. It computes
  `(x_2 - x_1) / (x_2 - x_3) * newlength`, which is
  `(x_1 - x_2) / (x_3 - x_2) * newlength`, so x_2 maps to 0
  (`Projection.InterpolateEndpoints`). The vertical flip comes only from
  `trans_lat`, which subtracts the interpolated value from the height
  (`Geography.TransLatEnds`).
- `main_map` does not reject rows with an odd number of fields. A trailing
  unpaired field is ignored (`StateDraw.ParseRowShape`). A row with no pair
  at all (fewer than four fields) stops the build, because `min` and `max`
  of an empty list raise an error (`StateDraw.MapFrameRowErrors`). A row with
  one pair (four or five fields) stops it later, in `draw_map`, because the
  imaging library refuses a polygon of fewer than two points with a
  TypeError (`StateDraw.MapFrameShortRows`). By then the regions before it
  have been outlined.
- The tally does not skip unexpected entries. It raises `KeyError` for a
  degree from the home institution, whose seed entry has no "Degrees" key. It
  also raises `KeyError` for a known school when the department has not been
  seen at that school before (`DegreeTally.CountDegree`).
- `draw_connections` starts from `(42.71280, -73.20302140000001)`, which is a
  latitude/longitude pair. The code uses it as a pixel pair, and the model
  does the same (`Details.ANCHOR`).

## Model

| member | source | states |
|---|---|---|
| Projection.Interpolate | statedraw.py:14-22 | the result is the affine remap of x_1 from the segment [x_2, x_3] to length newlength: `r * (x_3 - x_2) == (x_1 - x_2) * newlength` |
| Projection.InterpolateEndpoints | statedraw.py:14-22 | x_2 maps to 0 and x_3 maps to newlength |
| Projection.InterpolateWithin | statedraw.py:15-21 | for x_2 <= x_1 <= x_3 and a non-negative length, the result lies in [0, newlength] |
| Projection.InterpolateMonotone | statedraw.py:14-22 | on an increasing segment, interpolation preserves order |
| Projection.ProportionalHeight | statedraw.py:24-32 | the result is to new_width as height is to width: `r * width == height * new_width` |
| Projection.ProportionalHeightSame | statedraw.py:24-32 | at the original width the height is unchanged |
| Projection.ProportionalHeightLinear | statedraw.py:24-32 | the height is additive and homogeneous in new_width |
| Projection.Trunc | statedraw.py:44 | `int()` truncates toward zero: the result is the integer part of x, for both signs |
| Projection.MaxOf | statedraw.py:129 | `max` of a non-empty list is an element of it that is at least every element |
| Projection.MinOf | statedraw.py:130 | `min` of a non-empty list is an element of it that is at most every element |
| Geography.Region.Longs | statedraw.py:78-80 | one longitude per coordinate |
| Geography.Region.Lats | statedraw.py:82-84 | one latitude per coordinate |
| Geography.ZipLongsLats | statedraw.py:78-84 | zipping `longs()` with `lats()` gives back the coordinates |
| Geography.Region.MinLat | statedraw.py:86-88 | the minimum latitude is attained by a coordinate and bounds all of them from below |
| Geography.Region.MinLong | statedraw.py:90-92 | the minimum longitude is attained by a coordinate and bounds all of them from below |
| Geography.Region.MaxLat | statedraw.py:94-96 | the maximum latitude is attained by a coordinate and bounds all of them from above |
| Geography.Region.MaxLong | statedraw.py:98-100 | the maximum longitude is attained by a coordinate and bounds all of them from above |
| Geography.Frame.TransLat | statedraw.py:50-51 | one pixel row per latitude of the region |
| Geography.Frame.TransLong | statedraw.py:54-55 | one pixel column per longitude of the region |
| Geography.Frame.Height | statedraw.py:44 | the image height is `proportional_height(width, max_long - min_long, max_lat - min_lat)` |
| Geography.Frame.X | statedraw.py:55 | a longitude's column is `interpolate(long, min_long, max_long, width)` |
| Geography.Frame.Y | statedraw.py:51 | a latitude's row is the height minus `interpolate(lat, min_lat, max_lat, height)` |
| Geography.Zip | statedraw.py:65 | Python's `zip`: the pairs of equal positions, up to the shorter list |
| Geography.Frame.Outline | statedraw.py:65 | the polygon points are the zipped columns and rows of the region |
| Geography.Frame.ValidSize | statedraw.py:44 | when `Plot.__init__` succeeds: a non-zero longitude span to divide by, and a width and truncated height `Image.new` accepts |
| Canvas.Blank | statedraw.py:44 | `Image.new`: an image of the given size on a white background, with nothing drawn |
| Geography.HeightNonNegative | statedraw.py:44 | a frame with a positive longitude span, a non-negative latitude span and a non-negative width has a non-negative image height |
| Geography.TransLongEnds | statedraw.py:54-55 | min_long maps to column 0 and max_long maps to column width |
| Geography.TransLatEnds | statedraw.py:50-51 | min_lat maps to the bottom row (the height) and max_lat maps to row 0 |
| Geography.TransLongOrder | statedraw.py:54-55 | each column is the transform of its own longitude, and a larger longitude is never further left |
| Geography.TransLatOrder | statedraw.py:50-51 | each row is the transform of its own latitude, and a larger latitude is never lower |
| Geography.OutlineInside | statedraw.py:57-66 | the polygon of a region inside the frame has one point per coordinate, each the (column, row) of that coordinate and inside the image |
| Geography.CornersRoundTrip | statedraw.py:50-55 | the frame's south-west and north-east corners land on the image's bottom-left and top-right corners |
| StateDraw.Plot.constructor | statedraw.py:34-44 | the plot records its frame and starts as a blank white image `int(width)` by `int(proportional_height(...))` pixels |
| StateDraw.Plot.DrawMap | statedraw.py:57-66 | the call succeeds exactly when the region has at least two points; then exactly one command is added to the image, a black, unfilled polygon through the zipped pixel columns and rows of the region; otherwise the image is unchanged (the polygon's TypeError) |
| StateDraw.Plot.DrawRegions | statedraw.py:134-135 | the loop succeeds exactly when every region has two points, and the image then gains one outline per region, in region order; otherwise it stops at a region of fewer than two points, after outlining exactly the regions before it |
| StateDraw.AllDrawable | statedraw.py:66 | every region has the two points `polygon` needs |
| StateDraw.PairsFrom | statedraw.py:126 | the comprehension from field x on: the pair (field x, mercator of field x+1), then the pairs from field x+2, while x < len - 1 |
| StateDraw.ParseRow | statedraw.py:126 | a row's coordinates are the pairs taken from field 2 on |
| StateDraw.Regions | statedraw.py:125-128 | one region per boundary row |
| StateDraw.PairsFromShape | statedraw.py:126 | from field x on, a row yields (len - x) / 2 pairs, the k-th being (field x+2k, mercator of field x+2k+1) |
| StateDraw.ParseRowShape | statedraw.py:126 | a row of L fields yields (L - 2) / 2 pairs taken from fields 2, 3, 4, 5, ...; a row of fewer than 4 fields yields none |
| StateDraw.ParseBoundaries | statedraw.py:122-128 | the reading loops build exactly the regions of the rows, in row order |
| StateDraw.MaxLats | statedraw.py:129 | the list `[r.max_lat() for r in all_regions]`, one entry per region |
| StateDraw.MinLats | statedraw.py:130 | the list `[r.min_lat() for r in all_regions]`, one entry per region |
| StateDraw.MaxLongs | statedraw.py:131 | the list `[r.max_long() for r in all_regions]`, one entry per region |
| StateDraw.MinLongs | statedraw.py:132 | the list `[r.min_long() for r in all_regions]`, one entry per region |
| StateDraw.BoundingBox | statedraw.py:129-132 | the box is the min of the regions' minimum longitudes and latitudes and the max of their maximum ones |
| StateDraw.BoundingBoxContains | statedraw.py:129-132 | the box of the extrema of all regions contains every coordinate of every region |
| StateDraw.BoundingBoxAttained | statedraw.py:129-132 | each of the box's four bounds is attained by some coordinate, so the box is the smallest that contains them all |
| StateDraw.BoundingBoxSized | statedraw.py:129-133 | when the longitude span is non-zero and the width non-negative, the box gives `Plot.__init__` a valid image size |
| StateDraw.MapFrameSound | statedraw.py:122-135 | a successful build has a frame with positive spans and a valid size that contains every parsed coordinate |
| StateDraw.MapFrameRowErrors | statedraw.py:125-132 | the build fails on an empty region exactly when some row has fewer than four fields, and fails for lack of regions exactly when there are no rows |
| StateDraw.MapFrame | statedraw.py:125-135 | the frame main_map builds from its rows' regions, or the first failure |
| StateDraw.FrameFor | statedraw.py:129-135 | the first failure in Python's order: a region without pairs (exactly when some region is empty), no rows (exactly when there are no regions), a zero longitude span, a negative width, a zero latitude span, a one-point region; a success has all regions drawable, the given width and non-zero spans |
| StateDraw.MapFrameShortRows | statedraw.py:126-135 | the one-point failure comes only from a row of four or five fields, and a successful build has at least six fields in every row |
| StateDraw.Polygons | statedraw.py:134-135 | the outlines drawn, one black polygon per region, in region order |
| StateDraw.MainMap | statedraw.py:109-137 | main_map fails with the error of the frame computation, including the one-point polygon, or returns a new plot on that frame, whose image is the blank image with every region outlined in order |
| Degrees.DegreeList.Pop | full.py:253 | `pop()` returns the last degree and removes it, keeping the rest in order |
| Dicts.Empty | full.py:217 | `{}`: no keys and a consistent dictionary |
| Dicts.Dict.Put | full.py:226-228 | a dictionary write: the key's value is replaced, an existing key keeps its place, a new key goes last, and a consistent dictionary stays consistent |
| Details.InBounds | full.py:224 | the inclusive test of the raw longitude and latitude against the frame's bounds |
| Details.Place | full.py:224-228 | a school is "N/A" exactly when it is outside the inclusive bounds; otherwise it is at the column of its longitude and the row of its projected latitude |
| Details.OnePoint | full.py:225-226 | the first pixel of a one-point region is (column of its longitude, row of its latitude) |
| Details.PlacedWithinWidth | full.py:224-226 | a placed school's column lies within the image width |
| Details.PlaceAll | full.py:220-229 | writing the directory's schools into a consistent table keeps it consistent (each key listed once, listed keys and stored keys the same) |
| Details.PlaceAllPlaced | full.py:220-229 | after the first n schools are written, each of them holds its own placement |
| Details.PlaceAllOthers | full.py:220-229 | after the first n schools are written, every other entry is unchanged and no other key has appeared |
| Details.TranslatedSchools | full.py:220-229 | after the whole directory, every school has its placement, which is "N/A" exactly when the school is out of bounds |
| Details.TranslatedOthersUnchanged | full.py:220-229 | after the whole directory, the table's keys are its old keys plus the directory's, and schools outside the directory keep their entries |
| Details.DetailPlot.constructor | full.py:214-218 | the overlay has the base plot's frame, the given map image, no colors and an empty school table, and a blank image of the base plot's size |
| Details.DetailPlot.TranslateCoordinates | full.py:220-229 | the table becomes the old table with every school of the directory written in directory order, and it stays consistent |
| Details.DetailPlot.PlaceSchool | full.py:222-228 | the table gains or overwrites exactly the one school, with its placement |
| Details.Marker | full.py:236 | a school's dot is the black ellipse from its pixel plus 5 to its pixel minus 5 on both axes |
| Details.Markers | full.py:233-236 | the dots drawn for a table, one per placed school in key order, none for "N/A" |
| Details.DetailPlot.SchoolPts | full.py:231-238 | the map image gains one black dot of radius 5 per placed school, in table order, and nothing for "N/A" schools |
| Details.MarkersCount | full.py:233-238 | the number of dots equals the number of distinct placed schools |
| Details.MarkersMatchSchools | full.py:233-238 | every placed school gets its dot, and every dot belongs to a placed school |
| Details.Start | full.py:247-250 | the first point is `point1`, or the hard-coded anchor when `point1` is None |
| Details.Segment | full.py:254-255 | the blue line of width 5 between two points |
| Details.StopsOnMissing | full.py:252 | the walk ends on a degree whose school has no entry in the table, where the lookup raises KeyError |
| Details.Run | full.py:246-256 | the number of degrees consumed never exceeds the list length |
| Details.RunIsLongestPlacedSuffix | full.py:246-256 | the degrees consumed are the longest suffix whose schools are all placed; the degree before them, if any, is "N/A" or missing |
| Details.Path | full.py:252-256 | the segments drawn: from the start point to the last degree's school while it is placed, then on from there with the rest of the list |
| Details.PathWalksBackwards | full.py:242-256 | one blue segment of width 5 per consumed degree: the first from the start point to the last degree's school, each next one from the previous school to the school of the degree before it |
| Details.DetailPlot.DrawConnections | full.py:242-256 | the consumed suffix is popped from the list, the image gains exactly the backward path, and the call fails (KeyError) exactly when it stops at a school missing from the table |
| UrlFilter.CaseFold | full.py:42 | `casefold()` on ASCII: same length, upper-case letters lowered |
| UrlFilter.EndsWith | full.py:42 | `str.endswith`: the suffix is the tail of the string |
| UrlFilter.IsMedia | full.py:39-43 | a url names media when its case-folded form ends with one of the nine extensions |
| UrlFilter.ExtensionIsValid | full.py:38-44 | a url is valid exactly when its case-folded form ends with none of the nine media extensions |
| UrlFilter.IsMediaIgnoresCase | full.py:42 | whether a url counts as media does not depend on letter case |
| UrlFilter.SlashTerminatedIsNotMedia | full.py:38-49 | a url ending in "/", which is every url `filter_urls` builds, is always valid |
| UrlFilter.SuffixWithoutDotIsMedia | full.py:39-43 | the test matches bare suffixes: every string ending in "JPG", whatever precedes it and with no dot, counts as media |
| DegreeTally.CountDegree | full.py:293-302 | one degree fails exactly when its school is known and is the home seed entry (KeyError 'Degrees') or lacks the department (KeyError dept); on success the level joins the level set, the school is added if new and holds counts, and other schools are unchanged |
| DegreeTally.FirstSeen | full.py:294-296 | a school seen for the first time gets `{dept: {level: 1}}` |
| DegreeTally.RepeatedIncrements | full.py:298-299 | a (school, dept, level) already counted goes up by one, and the school's other counts stay the same |
| DegreeTally.NewLevelSetToOne | full.py:300-301 | a new level under a known department of the school is set to 1, and the school's other counts stay the same |
| DegreeTally.CountStep | full.py:293-302 | one degree raises only its own (dept, level) count of its school, by one |
| DegreeTally.Initial | full.py:281-283 | `allschools` starts with the home institution's seed entry only, and `all_degree_levels` starts empty |
| DegreeTally.ProfEvents | full.py:291-292 | a professor's visited degrees: none for a "None" listing, otherwise one per degree in list order |
| DegreeTally.ProfsEvents | full.py:288-292 | a department's visited degrees: each professor's in visiting order |
| DegreeTally.Events | full.py:284-292 | the degrees the loop nest visits: every department in order, every professor in order, every degree of a listing that is not "None" |
| DegreeTally.Tally | full.py:284-304 | one count step per visited degree, stopping at the first exception |
| DegreeTally.TallyAll | full.py:281-304 | the tally of every visited degree, starting from the home seed entry and no levels |
| DegreeTally.TallyAppend | full.py:284-304 | tallying two stretches of degrees in turn equals tallying them together, and an exception in the first stretch is the outcome |
| DegreeTally.RaisedSticks | full.py:284-304 | once the tally has raised, later degrees do not change the outcome |
| DegreeTally.RaisedAtProfessor | full.py:284-304 | an exception raised at one professor is the outcome of the whole loop nest |
| DegreeTally.ProfsEventsAppend | full.py:288-304 | the degrees visited for two runs of professors are those of each run, in order |
| DegreeTally.EventsAppend | full.py:284-304 | the degrees visited for two runs of departments are those of each run, in order |
| DegreeTally.NoneFoundChangesNothing | full.py:291-304 | professors whose listing is "None" contribute nothing; dropping them leaves the visited degrees the same |
| DegreeTally.HomeStaysSeed | full.py:281-299 | a successful run keeps the home institution's seed entry as it is |
| DegreeTally.HomeDegreeRaises | full.py:281-298 | a degree from the home institution anywhere in the input makes the whole tally raise |
| DegreeTally.TallyCounts | full.py:281-304 | after a successful run, every count equals the number of degrees of that school, department and level, and the level set is the set of levels seen |
| DegreeTally.CountOne | full.py:293-302 | the loop body returns the same new state, or the same exception, as one step of the tally |
| DegreeTally.TallyProfessor | full.py:291-302 | the inner loop over one professor's degrees gives the tally of those degrees in list order, stopping at the first exception |
| DegreeTally.TallyDegrees | full.py:284-304 | the loop nest over departments, professors and degrees gives the tally of every degree in visiting order |

## Left out

- StateDraw.MainMap: `mercator` raises ValueError (a math domain error) wherever `tan(pi/4 + lat/2)` is not positive, for example at a latitude of -90 or of 100, which stops `main_map` inside the row comprehension. The model's `mercator` is a total function, so `MainMap` and `MapFrame` have no such failure.
- Details.DetailPlot.SchoolPts: the ellipse box at full.py:236 is given with its larger corner first. The model assumes an imaging library that accepts such a box, as older releases of PIL do. Newer Pillow releases refuse it with ValueError at the first placed school, and the model does not capture that failure.
- `mercator` (statedraw.py:102-106) is a parameter of the model. Logarithms and tangents of floats are not modelled, and no property of the projection is assumed.
- All arithmetic is exact real arithmetic. Floating-point rounding is not modelled.
- Rasterisation is not modelled. An image is the list of drawing commands made on it (polygons, ellipses, lines). PIL's pixels are left out.
- `Plot.save`, `DetailPlot.new_save` and the `p.save` at the end of `main_map` write files, so they are left out.
- `Image.open(mapfile)` in `DetailPlot.__init__` reads a file. The model takes the opened image as the `mapImage` parameter.
- Reading the CSV file and `float()` parsing are left out. `main_map` takes the rows as lists of reals. Fields 0 and 1 are never read by the code.
- Width is an `int`. A float width passed to `Plot.__init__` is not modelled.
- `filter_degrees`, `filter_urls` outside `extension_is_valid`, `DeptWeb`, `Professor` and `Institution` fetch web pages, geocode or match regular expressions. They are left out. The tally takes each department's name and each professor's `filter_degrees` listing as input.
- `casefold` is modelled as ASCII lower-casing (`UrlFilter.CaseFold`). Unicode case folding is left out.
- Iterating the `webs` and `profs()` sets has no defined order in Python. The model visits departments and professors in the order of the given sequences.
- The `departments` set of `main_details` is left out. The function returns it, and the tally is never returned. Everything after `return departments` is unreachable and is left out too.
- `DetailPlot.points` is left out. It is not part of the modelled core and is never called.
- The `print` in `draw_connections` (full.py:251) is output only, so it is left out.
- The `directory` argument of `draw_connections` is never used, so it is dropped.
- The `colors` field is only initialised, and only that is modelled.
- A directory entry `directory[school]["Object"]` is reduced to its `lat()` and `lon()`, as `Details.Location`.
- Python's recursion limit in `draw_connections` is not modelled.
