/** The tourist-spot handlers over the spot, type, image, video and
    coordinate tables.

    The handlers that write (add a spot, add videos, replace coordinates,
    remove videos, delete coordinates) are methods of `SpotStore`, and each
    names in its `modifies` clause the one table it writes. What they do to
    the rows of one spot is stated by functions on the tables (`VideosOf`,
    `CoordinatesOf`) and by lemmas saying that only the rows of the given
    spot are touched. The read handlers are functions, except
    `getByTypeController` and `getRecommendationsController`, whose
    dictionaries are built by loops. Grouping and
    recommendations both build dictionaries keyed by type name; whether a
    type name can clash with an inherited object key is a finding of this
    model, written up in the README. */
module TouristSpots {
  import opened Common
  import opened Credentials
  import Accounts

  datatype Spot = Spot(
    id: string,
    name: string,
    description: string,
    lat: real,
    lon: real,
    typeId: string,
    userId: string)

  datatype SpotType = SpotType(id: string, name: string, color: string)

  datatype Image = Image(imageURL: string, spotId: string)

  datatype Video = Video(videoURL: string, spotId: string)

  datatype Coordinate = Coordinate(spotId: string, lat: real, lon: real)

  /** One item of the `coordinates` list of an add-coordinates request. */
  datatype Point = Point(lat: real, lon: real)

  /** The body of an add-spot request. `userId` is whatever owner the client
      put in the body, if any. */
  datatype AddSpotDto = AddSpotDto(
    name: string,
    description: string,
    lat: real,
    lon: real,
    typeId: string,
    userId: Option<string>)

  ghost predicate UniqueSpotIds(spots: seq<Spot>) {
    forall i, j :: 0 <= i < j < |spots| ==> spots[i].id != spots[j].id
  }

  ghost predicate SpotExists(spots: seq<Spot>, id: string) {
    exists i :: 0 <= i < |spots| && spots[i].id == id
  }

  /** Row `i` is the spot `findFirst({ where: { id } })` returns. */
  ghost predicate IsFirstSpot(spots: seq<Spot>, id: string, i: int) {
    && 0 <= i < |spots| && spots[i].id == id
    && forall j :: 0 <= j < i ==> spots[j].id != id
  }

  function FindSpot(spots: seq<Spot>, id: string): (r: Option<nat>)
    ensures r.Some? ==> IsFirstSpot(spots, id, r.value)
    ensures r.None? <==> forall j :: 0 <= j < |spots| ==> spots[j].id != id
  {
    FirstIndex(spots, (s: Spot) => s.id == id)
  }

  function FindType(types: seq<SpotType>, id: string): (r: Option<nat>)
    ensures r.Some? ==> r.value < |types| && types[r.value].id == id
    ensures r.None? <==> forall j :: 0 <= j < |types| ==> types[j].id != id
  {
    FirstIndex(types, (t: SpotType) => t.id == id)
  }

  /** Every spot's type is in the type table, as the foreign key
      guarantees. */
  ghost predicate TypesResolve(spots: seq<Spot>, types: seq<SpotType>) {
    forall s :: s in spots ==> FindType(types, s.typeId).Some?
  }

  /** Every spot's owner is in the user table, as the foreign key
      guarantees. */
  ghost predicate OwnersResolve(spots: seq<Spot>, users: seq<Accounts.User>) {
    forall s :: s in spots ==> Accounts.FindById(users, s.userId).Some?
  }

  // ----------------------------------------------------- rows of one spot

  function ImagesOf(images: seq<Image>, spotId: string): seq<Image> {
    Filter(images, (m: Image) => m.spotId == spotId)
  }

  function VideosOf(videos: seq<Video>, spotId: string): seq<Video> {
    Filter(videos, (v: Video) => v.spotId == spotId)
  }

  function CoordinatesOf(coordinates: seq<Coordinate>, spotId: string): seq<Coordinate> {
    Filter(coordinates, (c: Coordinate) => c.spotId == spotId)
  }

  /** The video table after `deleteMany({ where: { tourismPotentialId } })`. */
  function WithoutVideosOf(videos: seq<Video>, spotId: string): (r: seq<Video>)
    ensures forall v :: v in r <==> v in videos && v.spotId != spotId
  {
    Filter(videos, (v: Video) => v.spotId != spotId)
  }

  /** The coordinate table after `deleteMany({ where: { tourismPotentialId } })`. */
  function WithoutCoordinatesOf(coordinates: seq<Coordinate>, spotId: string): (r: seq<Coordinate>)
    ensures forall c :: c in r <==> c in coordinates && c.spotId != spotId
  {
    Filter(coordinates, (c: Coordinate) => c.spotId != spotId)
  }

  /** The rows `createMany` inserts for the submitted URLs, one per URL and in
      the order given, each linked to the spot. */
  function VideoRows(spotId: string, urls: seq<string>): (r: seq<Video>)
    ensures |r| == |urls|
    ensures forall k :: 0 <= k < |r| ==> r[k].videoURL == urls[k] && r[k].spotId == spotId
  {
    seq(|urls|, k requires 0 <= k < |urls| => Video(urls[k], spotId))
  }

  /** The rows `createMany` inserts for the submitted points, one per point
      and in the order given, each linked to the spot. */
  function CoordinateRows(spotId: string, points: seq<Point>): (r: seq<Coordinate>)
    ensures |r| == |points|
    ensures forall k :: 0 <= k < |r| ==>
      r[k].spotId == spotId && r[k].lat == points[k].lat && r[k].lon == points[k].lon
  {
    seq(|points|, k requires 0 <= k < |points| => Coordinate(spotId, points[k].lat, points[k].lon))
  }

  /** The coordinate table after `addCoordinatesController`'s delete then
      insert. */
  function ReplaceCoordinates(coordinates: seq<Coordinate>, spotId: string, points: seq<Point>)
    : (r: seq<Coordinate>)
    ensures |points| <= |r|
    ensures r[|r| - |points|..] == CoordinateRows(spotId, points)
    ensures forall c :: c in r[..|r| - |points|] <==> c in coordinates && c.spotId != spotId
  {
    WithoutCoordinatesOf(coordinates, spotId) + CoordinateRows(spotId, points)
  }

  /** Appending the new video rows gives the spot exactly those rows after
      its old ones, and leaves the videos of every other spot as they
      were. */
  lemma AddVideosTouchesOnlyThatSpot(videos: seq<Video>, spotId: string, urls: seq<string>, other: string)
    ensures VideosOf(videos + VideoRows(spotId, urls), spotId) == VideosOf(videos, spotId) + VideoRows(spotId, urls)
    ensures other != spotId ==> VideosOf(videos + VideoRows(spotId, urls), other) == VideosOf(videos, other)
  {
    var rows := VideoRows(spotId, urls);
    FilterAppend(videos, rows, (v: Video) => v.spotId == spotId);
    FilterAll(rows, (v: Video) => v.spotId == spotId);
    if other != spotId {
      FilterAppend(videos, rows, (v: Video) => v.spotId == other);
      FilterNone(rows, (v: Video) => v.spotId == other);
    }
  }

  /** After add-coordinates, the spot's coordinates are exactly the
      submitted points, in order, and every other spot keeps its own. */
  lemma ReplaceCoordinatesTouchesOnlyThatSpot(
    coordinates: seq<Coordinate>, spotId: string, points: seq<Point>, other: string)
    ensures CoordinatesOf(ReplaceCoordinates(coordinates, spotId, points), spotId) == CoordinateRows(spotId, points)
    ensures other != spotId ==>
      CoordinatesOf(ReplaceCoordinates(coordinates, spotId, points), other) == CoordinatesOf(coordinates, other)
  {
    var kept := WithoutCoordinatesOf(coordinates, spotId);
    var rows := CoordinateRows(spotId, points);
    FilterAppend(kept, rows, (c: Coordinate) => c.spotId == spotId);
    FilterNone(kept, (c: Coordinate) => c.spotId == spotId);
    FilterAll(rows, (c: Coordinate) => c.spotId == spotId);
    if other != spotId {
      FilterAppend(kept, rows, (c: Coordinate) => c.spotId == other);
      FilterNone(rows, (c: Coordinate) => c.spotId == other);
      FilterFilter(coordinates, (c: Coordinate) => c.spotId != spotId, (c: Coordinate) => c.spotId == other);
    }
  }

  /** Removing a spot's videos deletes all of its rows and no row of another
      spot. The count `deleteMany` reports is the number of rows the spot
      had. */
  lemma RemoveVideosTouchesOnlyThatSpot(videos: seq<Video>, spotId: string, other: string)
    ensures VideosOf(WithoutVideosOf(videos, spotId), spotId) == []
    ensures other != spotId ==> VideosOf(WithoutVideosOf(videos, spotId), other) == VideosOf(videos, other)
    ensures |videos| - |WithoutVideosOf(videos, spotId)| == |VideosOf(videos, spotId)|
  {
    var kept := WithoutVideosOf(videos, spotId);
    assert forall j :: 0 <= j < |kept| ==> kept[j] in kept;
    FilterNone(kept, (v: Video) => v.spotId == spotId);
    if other != spotId {
      FilterFilter(videos, (v: Video) => v.spotId != spotId, (v: Video) => v.spotId == other);
    }
    FilterSplit(videos, (v: Video) => v.spotId != spotId, (v: Video) => v.spotId == spotId);
  }

  /** Deleting a spot's coordinates removes all of its rows and no row of
      another spot. The count `deleteMany` reports is the number of rows
      the spot had. */
  lemma DeleteCoordinatesTouchesOnlyThatSpot(coordinates: seq<Coordinate>, spotId: string, other: string)
    ensures CoordinatesOf(WithoutCoordinatesOf(coordinates, spotId), spotId) == []
    ensures other != spotId ==>
      CoordinatesOf(WithoutCoordinatesOf(coordinates, spotId), other) == CoordinatesOf(coordinates, other)
    ensures |coordinates| - |WithoutCoordinatesOf(coordinates, spotId)| == |CoordinatesOf(coordinates, spotId)|
  {
    var kept := WithoutCoordinatesOf(coordinates, spotId);
    assert forall j :: 0 <= j < |kept| ==> kept[j] in kept;
    FilterNone(kept, (c: Coordinate) => c.spotId == spotId);
    if other != spotId {
      FilterFilter(coordinates, (c: Coordinate) => c.spotId != spotId, (c: Coordinate) => c.spotId == other);
    }
    FilterSplit(coordinates, (c: Coordinate) => c.spotId != spotId, (c: Coordinate) => c.spotId == spotId);
  }

  // ------------------------------------------------- the owner-or-admin gate

  /** The two checks add-videos and add-coordinates make before writing. The
      spot must exist (404), and the caller must be an ADMIN or the spot's
      owner (401). */
  function SpotAccess(spots: seq<Spot>, caller: Claims, spotId: string): (r: Reply<Spot>)
    ensures r.Fail? ==> r == Fail(Http(NotFound)) || r == Fail(Http(Unauthorized))
    ensures r == Fail(Http(NotFound)) <==> !SpotExists(spots, spotId)
    ensures r == Fail(Http(Unauthorized)) <==>
      exists i :: IsFirstSpot(spots, spotId, i) && !MayActFor(caller, spots[i].userId)
    ensures r.Ok? ==>
      exists i :: IsFirstSpot(spots, spotId, i) && r.value == spots[i] && MayActFor(caller, spots[i].userId)
  {
    match FindSpot(spots, spotId)
    case None => Fail(Http(NotFound))
    case Some(i) =>
      assert forall k :: IsFirstSpot(spots, spotId, k) ==> k == i;
      if caller.role != ADMIN && caller.id != spots[i].userId then Fail(Http(Unauthorized))
      else Ok(spots[i])
  }

  /** The record `addTouristSpotController` creates. The owner is the
      caller, whatever owner the body names. */
  function NewSpot(dto: AddSpotDto, newId: string, caller: Claims): (s: Spot)
    ensures s.userId == caller.id
    ensures s.id == newId && s.name == dto.name && s.description == dto.description
    ensures s.lat == dto.lat && s.lon == dto.lon && s.typeId == dto.typeId
  {
    Spot(newId, dto.name, dto.description, dto.lat, dto.lon, dto.typeId, caller.id)
  }

  /** The body of an update-spot request: the fields it supplies. */
  datatype UpdateSpotDto = UpdateSpotDto(
    name: Option<string>,
    description: Option<string>,
    lat: Option<real>,
    lon: Option<real>,
    typeId: Option<string>)

  /** The record `prisma.tourismPotential.update` writes with the body as
      its data: a supplied field replaces the stored one, and an absent
      field keeps it. The id and the owner are never changed. */
  function ApplySpotUpdate(s: Spot, dto: UpdateSpotDto): (r: Spot)
    ensures r.id == s.id && r.userId == s.userId
    ensures dto.name.Some? ==> r.name == dto.name.value
    ensures dto.name.None? ==> r.name == s.name
    ensures dto.description.Some? ==> r.description == dto.description.value
    ensures dto.description.None? ==> r.description == s.description
    ensures dto.lat.Some? ==> r.lat == dto.lat.value
    ensures dto.lat.None? ==> r.lat == s.lat
    ensures dto.lon.Some? ==> r.lon == dto.lon.value
    ensures dto.lon.None? ==> r.lon == s.lon
    ensures dto.typeId.Some? ==> r.typeId == dto.typeId.value
    ensures dto.typeId.None? ==> r.typeId == s.typeId
    ensures dto == UpdateSpotDto(None, None, None, None, None) ==> r == s
  {
    s.(name := dto.name.GetOr(s.name),
       description := dto.description.GetOr(s.description),
       lat := dto.lat.GetOr(s.lat),
       lon := dto.lon.GetOr(s.lon),
       typeId := dto.typeId.GetOr(s.typeId))
  }

  /** The owner named in the body has no effect on the new spot. */
  lemma NewSpotIgnoresBodyOwner(dto: AddSpotDto, newId: string, caller: Claims, claimed: Option<string>)
    ensures NewSpot(dto.(userId := claimed), newId, caller) == NewSpot(dto, newId, caller)
  {
  }

  // ---------------------------------------------------------- read handlers

  /** The URL of the first image of a spot, as `Image: { take: 1 }` and
      `spot.Image[0]?.imageURL` give it, or nothing when the spot has no
      image. */
  function FirstImage(images: seq<Image>, spotId: string): (r: Option<string>)
    ensures r.None? <==> forall k :: 0 <= k < |images| ==> images[k].spotId != spotId
    ensures r.Some? ==>
      exists k :: 0 <= k < |images| && images[k].spotId == spotId && images[k].imageURL == r.value &&
        forall j :: 0 <= j < k ==> images[j].spotId != spotId
  {
    match FirstIndex(images, (m: Image) => m.spotId == spotId)
    case None => None
    case Some(k) => Some(images[k].imageURL)
  }

  /** One row of the all-spots listing. */
  datatype SpotSummary = SpotSummary(
    id: string,
    name: string,
    typeName: string,
    color: string,
    image: Option<string>,
    description: string,
    lat: real,
    lon: real)

  /** `getAllSpotsController`: one row per spot, in table order. Each row
      carries its spot's type name and colour and the spot's first image,
      if it has one. */
  function AllSpots(spots: seq<Spot>, types: seq<SpotType>, images: seq<Image>): (r: seq<SpotSummary>)
    requires TypesResolve(spots, types)
    ensures |r| == |spots|
    ensures forall i :: 0 <= i < |r| ==>
      && r[i].id == spots[i].id && r[i].name == spots[i].name
      && r[i].description == spots[i].description && r[i].lat == spots[i].lat && r[i].lon == spots[i].lon
      && (exists t :: t in types && t.id == spots[i].typeId && r[i].typeName == t.name && r[i].color == t.color)
      && r[i].image == FirstImage(images, spots[i].id)
  {
    seq(|spots|, i requires 0 <= i < |spots| =>
      var s := spots[i];
      var t := types[FindType(types, s.typeId).value];
      SpotSummary(s.id, s.name, t.name, t.color, FirstImage(images, s.id), s.description, s.lat, s.lon))
  }

  function SpotName(s: Spot): string {
    s.name
  }

  /** The spots of one owner, in table order. */
  function OwnedBy(spots: seq<Spot>, userId: string): seq<Spot> {
    Filter(spots, (s: Spot) => s.userId == userId)
  }

  /** The spots the table shows the caller, before formatting: every spot
      for an ADMIN and only the caller's own for anyone else, in both cases
      ordered by name ascending. */
  function VisibleSpots(caller: Claims, spots: seq<Spot>): (r: seq<Spot>)
    ensures SortedBy(r, SpotName)
    ensures caller.role == ADMIN ==> multiset(r) == multiset(spots)
    ensures caller.role != ADMIN ==> multiset(r) == multiset(OwnedBy(spots, caller.id))
    ensures forall s :: s in r ==> s in spots && (caller.role != ADMIN ==> s.userId == caller.id)
    ensures forall s :: s in spots && (caller.role == ADMIN || s.userId == caller.id) ==> s in r
  {
    var chosen := if caller.role == ADMIN then spots else OwnedBy(spots, caller.id);
    SameMembers(SortBy(chosen, SpotName), chosen);
    SortBy(chosen, SpotName)
  }

  /** Both ways of formatting a table row need the spot's type and owner to
      resolve; every visible spot is a spot of the table, so they do. */
  lemma VisibleSpotsResolve(caller: Claims, spots: seq<Spot>, types: seq<SpotType>, users: seq<Accounts.User>)
    requires TypesResolve(spots, types) && OwnersResolve(spots, users)
    ensures TypesResolve(VisibleSpots(caller, spots), types)
    ensures OwnersResolve(VisibleSpots(caller, spots), users)
  {
  }

  /** One row of the spots table: `Ime` (name), `Tip` (type name) and
      `Dodao` (the email of the user who added it). */
  datatype TableRow = TableRow(id: string, name: string, typeName: string, addedBy: string)

  /** One spot formatted as a table row. */
  function TableRowOf(s: Spot, types: seq<SpotType>, users: seq<Accounts.User>): (r: TableRow)
    requires FindType(types, s.typeId).Some? && Accounts.FindById(users, s.userId).Some?
    ensures r.id == s.id && r.name == s.name
    ensures exists t :: t in types && t.id == s.typeId && r.typeName == t.name
    ensures exists u :: u in users && u.id == s.userId && r.addedBy == u.email
  {
    var t := types[FindType(types, s.typeId).value];
    var u := users[Accounts.FindById(users, s.userId).value];
    TableRow(s.id, s.name, t.name, u.email)
  }

  /** `getSpotsTableController`: the visible spots in name order, each with
      its type's name and its owner's email. */
  function SpotsTable(caller: Claims, spots: seq<Spot>, types: seq<SpotType>, users: seq<Accounts.User>)
    : (r: seq<TableRow>)
    requires TypesResolve(spots, types) && OwnersResolve(spots, users)
    ensures |r| == |VisibleSpots(caller, spots)|
    ensures forall i, j :: 0 <= i < j < |r| ==> LexLe(r[i].name, r[j].name)
    ensures forall i :: 0 <= i < |r| ==>
      var s := VisibleSpots(caller, spots)[i];
      && r[i].id == s.id && r[i].name == s.name
      && (exists t :: t in types && t.id == s.typeId && r[i].typeName == t.name)
      && (exists u :: u in users && u.id == s.userId && r[i].addedBy == u.email)
  {
    var visible := VisibleSpots(caller, spots);
    VisibleSpotsResolve(caller, spots, types, users);
    seq(|visible|, i requires 0 <= i < |visible| => TableRowOf(visible[i], types, users))
  }

  /** A spot as `findMany({ include: { type: { select: { name, color } } } })`
      returns it. */
  datatype TypedSpot = TypedSpot(spot: Spot, typeName: string, color: string)

  /** The rows of one type name, in input order. */
  function OfType(rows: seq<TypedSpot>, name: string): seq<TypedSpot> {
    Filter(rows, (r: TypedSpot) => r.typeName == name)
  }

  lemma OfTypeCounts(rows: seq<TypedSpot>, name: string)
    ensures multiset(OfType(rows, name)) <= multiset(rows)
    ensures forall x :: x in rows && x.typeName == name ==> multiset(OfType(rows, name))[x] == multiset(rows)[x]
  {
    FilterCounts(rows, (r: TypedSpot) => r.typeName == name);
  }

  ghost function TypeNames(rows: seq<TypedSpot>): set<string> {
    set r | r in rows :: r.typeName
  }

  /** Adding one row at the end adds it to its own type's group only. */
  lemma OfTypeSnoc(rows: seq<TypedSpot>, row: TypedSpot, name: string)
    ensures OfType(rows + [row], name) == OfType(rows, name) + (if row.typeName == name then [row] else [])
  {
    assert (rows + [row])[..|rows|] == rows;
  }

  lemma TypeNamesSnoc(rows: seq<TypedSpot>, row: TypedSpot)
    ensures TypeNames(rows + [row]) == TypeNames(rows) + {row.typeName}
  {
    assert forall r :: r in rows + [row] <==> r in rows || r == row;
  }

  /** `groups` maps each type name of `rows` to its rows, and no other
      name. */
  ghost predicate GroupsOf(rows: seq<TypedSpot>, groups: map<string, seq<TypedSpot>>) {
    && groups.Keys == TypeNames(rows)
    && (forall name :: name in groups ==> groups[name] == OfType(rows, name))
    && (forall name :: name !in groups ==> OfType(rows, name) == [])
  }

  /** One step of the `reduce`: the row is appended to the group of its
      type name, which is made empty first when missing. */
  function AddToGroup(groups: map<string, seq<TypedSpot>>, row: TypedSpot): map<string, seq<TypedSpot>> {
    groups[row.typeName := (if row.typeName in groups then groups[row.typeName] else []) + [row]]
  }

  lemma GroupsOfSnoc(rows: seq<TypedSpot>, groups: map<string, seq<TypedSpot>>, row: TypedSpot)
    requires GroupsOf(rows, groups)
    ensures GroupsOf(rows + [row], AddToGroup(groups, row))
  {
    var longer := rows + [row];
    var updated := AddToGroup(groups, row);
    TypeNamesSnoc(rows, row);
    forall name | name in updated ensures updated[name] == OfType(longer, name) {
      OfTypeSnoc(rows, row, name);
    }
    forall name | name !in updated ensures OfType(longer, name) == [] {
      OfTypeSnoc(rows, row, name);
    }
  }

  /** `getByTypeController`'s `reduce`: a dictionary from each type name in
      the input to the rows of that type, in input order. */
  method GroupByType(rows: seq<TypedSpot>) returns (groups: map<string, seq<TypedSpot>>)
    ensures GroupsOf(rows, groups)
  {
    groups := map[];
    var i := 0;
    while i < |rows|
      invariant 0 <= i <= |rows|
      invariant GroupsOf(rows[..i], groups)
    {
      var row := rows[i];
      assert rows[..i + 1] == rows[..i] + [row];
      GroupsOfSnoc(rows[..i], groups, row);
      groups := AddToGroup(groups, row);
      i := i + 1;
    }
    assert rows[..i] == rows;
  }

  /** The groups partition the input, part one: every row is in the group
      of its own type name, with all its copies. */
  lemma EachRowInOwnGroup(rows: seq<TypedSpot>, groups: map<string, seq<TypedSpot>>)
    requires groups.Keys == TypeNames(rows)
    requires forall name :: name in groups ==> groups[name] == OfType(rows, name)
    ensures forall k :: 0 <= k < |rows| ==>
      rows[k].typeName in groups &&
      multiset(groups[rows[k].typeName])[rows[k]] == multiset(rows)[rows[k]]
  {
    forall k | 0 <= k < |rows|
      ensures rows[k].typeName in groups
      ensures multiset(groups[rows[k].typeName])[rows[k]] == multiset(rows)[rows[k]]
    {
      var x := rows[k];
      assert x in rows;
      assert x.typeName in TypeNames(rows);
      OfTypeCounts(rows, x.typeName);
    }
  }

  /** The groups partition the input, part two: a group holds only rows of
      the input, never more copies than the input has, and no row of
      another type. */
  lemma GroupsHoldOnlyTheirRows(rows: seq<TypedSpot>, groups: map<string, seq<TypedSpot>>)
    requires forall name :: name in groups ==> groups[name] == OfType(rows, name)
    ensures forall name :: name in groups ==> multiset(groups[name]) <= multiset(rows)
    ensures forall name, x :: name in groups && x in groups[name] ==> x.typeName == name
  {
    forall name | name in groups ensures multiset(groups[name]) <= multiset(rows) {
      OfTypeCounts(rows, name);
    }
  }

  /** The keys every plain object inherits from `Object.prototype`
      (ECMAScript section 20.1.3, and section B.2.2 for `__proto__` and the
      legacy accessor helpers). Each inherited value is truthy and has no
      `push` method. */
  const InheritedKeys: set<string> := {
    "constructor", "hasOwnProperty", "isPrototypeOf", "propertyIsEnumerable",
    "toLocaleString", "toString", "valueOf", "__proto__",
    "__defineGetter__", "__defineSetter__", "__lookupGetter__", "__lookupSetter__"
  }

  /** `getByTypeController`'s `reduce` as written, over a plain `{}`
      accumulator. For a name not yet in the accumulator, `!acc[name]` is
      false when the name is an inherited key, so no array is made and the
      `push` throws. */
  function GroupOnPlainObject(rows: seq<TypedSpot>): (r: Reply<map<string, seq<TypedSpot>>>)
    ensures r.Fail? ==> r == Fail(TypeError)
    ensures r.Ok? ==> forall k :: 0 <= k < |rows| ==> rows[k].typeName in r.value
    decreases |rows|
  {
    if rows == [] then Ok(map[])
    else
      match GroupOnPlainObject(rows[..|rows| - 1])
      case Fail(f) => Fail(f)
      case Ok(acc) =>
        var row := rows[|rows| - 1];
        if row.typeName in acc then Ok(acc[row.typeName := acc[row.typeName] + [row]])
        else if row.typeName in InheritedKeys then Fail(TypeError)
        else Ok(acc[row.typeName := [row]])
  }

  /** The grouping as written succeeds exactly when no type name is an
      inherited key, and then it builds the intended groups. Otherwise the
      handler fails with a TypeError. */
  lemma {:induction false} PlainObjectGrouping(rows: seq<TypedSpot>)
    ensures GroupOnPlainObject(rows).Ok? <==>
      forall k :: 0 <= k < |rows| ==> rows[k].typeName !in InheritedKeys
    ensures GroupOnPlainObject(rows).Fail? ==> GroupOnPlainObject(rows).failure == TypeError
    ensures GroupOnPlainObject(rows).Ok? ==> GroupsOf(rows, GroupOnPlainObject(rows).value)
    decreases |rows|
  {
    if rows == [] {
      assert GroupsOf(rows, map[]);
    } else {
      var init, row := rows[..|rows| - 1], rows[|rows| - 1];
      assert rows == init + [row];
      PlainObjectGrouping(init);
      if GroupOnPlainObject(init).Fail? {
        PlainObjectFailStep(init, row);
      } else {
        PlainObjectOkStep(init, row);
      }
    }
  }

  /** Once the grouping as written has thrown, one more row does not bring
      it back, and the inherited name that made it throw is still there. */
  lemma PlainObjectFailStep(init: seq<TypedSpot>, row: TypedSpot)
    requires GroupOnPlainObject(init).Fail?
    requires exists k :: 0 <= k < |init| && init[k].typeName in InheritedKeys
    ensures GroupOnPlainObject(init + [row]).Fail?
    ensures exists k :: 0 <= k < |init + [row]| && (init + [row])[k].typeName in InheritedKeys
  {
    assert (init + [row])[..|init|] == init;
    var k :| 0 <= k < |init| && init[k].typeName in InheritedKeys;
    assert (init + [row])[k] == init[k];
  }

  /** One more row after a successful prefix: the grouping as written
      throws exactly when the row's type name is inherited, and otherwise
      keeps grouping correctly. */
  lemma PlainObjectOkStep(init: seq<TypedSpot>, row: TypedSpot)
    requires GroupOnPlainObject(init).Ok?
    requires forall k :: 0 <= k < |init| ==> init[k].typeName !in InheritedKeys
    requires GroupsOf(init, GroupOnPlainObject(init).value)
    ensures GroupOnPlainObject(init + [row]).Ok? <==>
      forall k :: 0 <= k < |init + [row]| ==> (init + [row])[k].typeName !in InheritedKeys
    ensures GroupOnPlainObject(init + [row]).Ok? ==>
      GroupsOf(init + [row], GroupOnPlainObject(init + [row]).value)
  {
    var acc := GroupOnPlainObject(init).value;
    assert (init + [row])[..|init|] == init;
    forall k | 0 <= k < |init| ensures (init + [row])[k] == init[k] {
    }
    if row.typeName in acc {
      KnownNameNotInherited(init, acc, row.typeName);
      GroupsOfSnoc(init, acc, row);
    } else if row.typeName !in InheritedKeys {
      GroupsOfSnoc(init, acc, row);
      assert [] + [row] == [row];
      assert AddToGroup(acc, row) == acc[row.typeName := [row]];
    }
  }

  /** A name already grouped from rows without inherited names is not
      inherited. */
  lemma KnownNameNotInherited(rows: seq<TypedSpot>, groups: map<string, seq<TypedSpot>>, name: string)
    requires forall k :: 0 <= k < |rows| ==> rows[k].typeName !in InheritedKeys
    requires groups.Keys == TypeNames(rows)
    requires name in groups
    ensures name !in InheritedKeys
  {
    var r :| r in rows && r.typeName == name;
    var k :| 0 <= k < |rows| && rows[k] == r;
  }

  /** A single spot whose type is named "constructor" makes the grouping as
      written throw. */
  lemma ConstructorTypeBreaksGrouping(spot: Spot, color: string)
    ensures GroupOnPlainObject([TypedSpot(spot, "constructor", color)]) == Fail(TypeError)
  {
    PlainObjectGrouping([TypedSpot(spot, "constructor", color)]);
  }

  /** When no type name is an inherited key, the grouping as written gives
      the same dictionary as `GroupByType`. */
  lemma PlainObjectAgreesWithGroupByType(rows: seq<TypedSpot>, groups: map<string, seq<TypedSpot>>)
    requires forall k :: 0 <= k < |rows| ==> rows[k].typeName !in InheritedKeys
    requires groups.Keys == TypeNames(rows)
    requires forall name :: name in groups ==> groups[name] == OfType(rows, name)
    ensures GroupOnPlainObject(rows) == Ok(groups)
  {
    PlainObjectGrouping(rows);
    GroupsAreDetermined(rows, GroupOnPlainObject(rows).value, groups);
  }

  /** Two dictionaries that both group `rows` by type name are the same. */
  lemma GroupsAreDetermined(rows: seq<TypedSpot>, a: map<string, seq<TypedSpot>>, b: map<string, seq<TypedSpot>>)
    requires a.Keys == TypeNames(rows) && b.Keys == TypeNames(rows)
    requires forall name :: name in a ==> a[name] == OfType(rows, name)
    requires forall name :: name in b ==> b[name] == OfType(rows, name)
    ensures a == b
  {
  }

  /** What the per-type `findFirst` of `getRecommendationsController`
      returns: a spot and the URL of its first image, if any. */
  datatype Recommendation = Recommendation(spot: Spot, image: Option<string>)

  /** The first spot of the type, with its first image, or nothing when the
      type has no spot. */
  function PickForType(spots: seq<Spot>, images: seq<Image>, typeId: string): (r: Option<Recommendation>)
    ensures r.None? <==> forall i :: 0 <= i < |spots| ==> spots[i].typeId != typeId
    ensures r.Some? ==>
      exists i :: 0 <= i < |spots| && spots[i].typeId == typeId && r.value.spot == spots[i] &&
        (forall j :: 0 <= j < i ==> spots[j].typeId != typeId) &&
        r.value.image == FirstImage(images, spots[i].id)
  {
    match FirstIndex(spots, (s: Spot) => s.typeId == typeId)
    case None => None
    case Some(i) => Some(Recommendation(spots[i], FirstImage(images, spots[i].id)))
  }

  /** No later type in the list has the same name as type `k`. */
  ghost predicate LastOfName(types: seq<SpotType>, k: int) {
    0 <= k < |types| && forall j :: k < j < |types| ==> types[j].name != types[k].name
  }

  ghost function TypeNameSet(types: seq<SpotType>): set<string> {
    set t | t in types :: t.name
  }

  lemma TypeNameSetSnoc(types: seq<SpotType>, t: SpotType)
    ensures TypeNameSet(types + [t]) == TypeNameSet(types) + {t.name}
  {
    assert forall u :: u in types + [t] <==> u in types || u == t;
  }

  /** `picks` holds, under each type name of `types`, the pick for the last
      type of that name. */
  ghost predicate PicksOf(types: seq<SpotType>, spots: seq<Spot>, images: seq<Image>,
                          picks: map<string, Option<Recommendation>>) {
    && picks.Keys == TypeNameSet(types)
    && forall k :: LastOfName(types, k) ==> picks[types[k].name] == PickForType(spots, images, types[k].id)
  }

  /** Storing one more type's pick keeps `PicksOf`. */
  lemma PicksOfSnoc(types: seq<SpotType>, t: SpotType, spots: seq<Spot>, images: seq<Image>,
                    picks: map<string, Option<Recommendation>>)
    requires PicksOf(types, spots, images, picks)
    ensures PicksOf(types + [t], spots, images, picks[t.name := PickForType(spots, images, t.id)])
  {
    var more, next := types + [t], picks[t.name := PickForType(spots, images, t.id)];
    TypeNameSetSnoc(types, t);
    forall k | LastOfName(more, k)
      ensures next[more[k].name] == PickForType(spots, images, more[k].id)
    {
      if k < |types| {
        assert more[|types|] == t;
        forall j | k < j < |types|
          ensures types[j].name != types[k].name
        {
          assert more[j] == types[j];
        }
      }
    }
  }

  /** `getRecommendationsController`: for each type in table order, the
      pick for that type, stored under the type's name. When two types share
      a name, the later one's pick is the one kept. */
  method Recommendations(types: seq<SpotType>, spots: seq<Spot>, images: seq<Image>)
    returns (picks: map<string, Option<Recommendation>>)
    ensures picks.Keys == TypeNameSet(types)
    ensures forall k :: LastOfName(types, k) ==> picks[types[k].name] == PickForType(spots, images, types[k].id)
  {
    picks := map[];
    var i := 0;
    while i < |types|
      invariant 0 <= i <= |types|
      invariant PicksOf(types[..i], spots, images, picks)
    {
      var t := types[i];
      PicksOfSnoc(types[..i], t, spots, images, picks);
      assert types[..i + 1] == types[..i] + [t];
      picks := picks[t.name := PickForType(spots, images, t.id)];
      i := i + 1;
    }
    assert types[..i] == types;
  }

  /** The spot and its related rows as `getSpotByIdController` returns them.
      Documents are not part of this model. */
  datatype SpotDetail = SpotDetail(
    spot: Spot,
    spotType: SpotType,
    images: seq<Image>,
    videos: seq<Video>,
    coordinates: seq<Coordinate>)

  /** `getSpotByIdController`: 404 for an unknown id, otherwise the spot with
      its type and all of its images, videos and coordinates. */
  function SpotById(
    spots: seq<Spot>, types: seq<SpotType>, images: seq<Image>,
    videos: seq<Video>, coordinates: seq<Coordinate>, id: string): (r: Reply<SpotDetail>)
    requires TypesResolve(spots, types)
    ensures r.Fail? <==> !SpotExists(spots, id)
    ensures r.Fail? ==> r == Fail(Http(NotFound))
    ensures r.Ok? ==>
      && (exists i :: IsFirstSpot(spots, id, i) && r.value.spot == spots[i])
      && r.value.spotType in types && r.value.spotType.id == r.value.spot.typeId
      && r.value.images == ImagesOf(images, id)
      && (forall m :: m in r.value.images <==> m in images && m.spotId == id)
      && r.value.videos == VideosOf(videos, id)
      && r.value.coordinates == CoordinatesOf(coordinates, id)
  {
    match FindSpot(spots, id)
    case None => Fail(Http(NotFound))
    case Some(i) =>
      var s := spots[i];
      var t := types[FindType(types, s.typeId).value];
      Ok(SpotDetail(s, t, ImagesOf(images, id), VideosOf(videos, id), CoordinatesOf(coordinates, id)))
  }

  // -------------------------------------------------------------- the store

  /** The tables the spot handlers write, updated in place. */
  class SpotStore {
    var spots: seq<Spot>
    var types: seq<SpotType>
    var images: seq<Image>
    var videos: seq<Video>
    var coordinates: seq<Coordinate>

    ghost predicate Valid()
      reads this
    {
      UniqueSpotIds(spots)
    }

    constructor (spots: seq<Spot>, types: seq<SpotType>, images: seq<Image>,
                 videos: seq<Video>, coordinates: seq<Coordinate>)
      requires UniqueSpotIds(spots)
      ensures Valid()
      ensures this.spots == spots && this.types == types && this.images == images
      ensures this.videos == videos && this.coordinates == coordinates
    {
      this.spots := spots;
      this.types := types;
      this.images := images;
      this.videos := videos;
      this.coordinates := coordinates;
    }

    /** `addTouristSpotController`. `newId` is the id the store generates. */
    method AddSpot(caller: Claims, dto: AddSpotDto, newId: string) returns (reply: Reply<Spot>)
      requires Valid()
      requires !SpotExists(spots, newId)
      modifies this`spots
      ensures Valid()
      ensures reply == Ok(NewSpot(dto, newId, caller))
      ensures spots == old(spots) + [NewSpot(dto, newId, caller)]
    {
      var created := Spot(newId, dto.name, dto.description, dto.lat, dto.lon, dto.typeId, caller.id);
      spots := spots + [created];
      reply := Ok(created);
    }

    /** `updateSpotController`: rewrites the spot with the given id. An id
        with no row is an error of the store. */
    method UpdateSpot(spotId: string, dto: UpdateSpotDto) returns (reply: Reply<Spot>)
      requires Valid()
      modifies this`spots
      ensures Valid()
      ensures !SpotExists(old(spots), spotId) ==> reply == Fail(StoreError) && spots == old(spots)
      ensures SpotExists(old(spots), spotId) ==>
        exists i :: IsFirstSpot(old(spots), spotId, i) &&
          reply == Ok(ApplySpotUpdate(old(spots)[i], dto)) && spots == old(spots)[i := reply.value]
    {
      var found := FindSpot(spots, spotId);
      if found.None? {
        reply := Fail(StoreError);
        return;
      }
      var i := found.value;
      var updated := ApplySpotUpdate(spots[i], dto);
      spots := spots[i := updated];
      reply := Ok(updated);
    }

    /** `deleteSpotController`: removes the spot with the given id and
        answers with it. An id with no row is an error of the store. With
        unique ids, no spot with that id is left. */
    method DeleteSpot(spotId: string) returns (reply: Reply<Spot>)
      requires Valid()
      modifies this`spots
      ensures Valid()
      ensures !SpotExists(old(spots), spotId) ==> reply == Fail(StoreError) && spots == old(spots)
      ensures SpotExists(old(spots), spotId) ==>
        exists i :: IsFirstSpot(old(spots), spotId, i) &&
          reply == Ok(old(spots)[i]) && spots == old(spots)[..i] + old(spots)[i + 1..]
      ensures !SpotExists(spots, spotId)
    {
      var found := FindSpot(spots, spotId);
      if found.None? {
        reply := Fail(StoreError);
        return;
      }
      var i := found.value;
      reply := Ok(spots[i]);
      ghost var before := spots;
      spots := spots[..i] + spots[i + 1..];
      forall j | 0 <= j < |spots| ensures spots[j].id != spotId {
        if j < i {
          assert spots[j] == before[j];
        } else {
          assert spots[j] == before[j + 1];
        }
      }
      forall j, k | 0 <= j < k < |spots| ensures spots[j].id != spots[k].id {
        var j', k' := if j < i then j else j + 1, if k < i then k else k + 1;
        assert spots[j] == before[j'] && spots[k] == before[k'];
      }
    }

    /** `addVideosController`: after the gate, one new video row per URL.
        The reply is the count `createMany` reports. */
    method AddVideos(caller: Claims, spotId: string, urls: seq<string>) returns (reply: Reply<nat>)
      requires Valid()
      modifies this`videos
      ensures Valid()
      ensures SpotAccess(spots, caller, spotId).Fail? ==>
        reply == Fail(SpotAccess(spots, caller, spotId).failure) && videos == old(videos)
      ensures SpotAccess(spots, caller, spotId).Ok? ==>
        reply == Ok(|urls|) && videos == old(videos) + VideoRows(spotId, urls)
    {
      var found := FindSpot(spots, spotId);
      if found.None? {
        reply := Fail(Http(NotFound));
        return;
      }
      var spot := spots[found.value];
      if caller.role != ADMIN && caller.id != spot.userId {
        reply := Fail(Http(Unauthorized));
        return;
      }
      var rows := VideoRows(spotId, urls);
      videos := videos + rows;
      reply := Ok(|rows|);
    }

    /** `addCoordinatesController`: after the gate, the spot's coordinates
        are deleted and the submitted points inserted. The reply is the
        count `createMany` reports. */
    method AddCoordinates(caller: Claims, spotId: string, points: seq<Point>) returns (reply: Reply<nat>)
      requires Valid()
      modifies this`coordinates
      ensures Valid()
      ensures SpotAccess(spots, caller, spotId).Fail? ==>
        reply == Fail(SpotAccess(spots, caller, spotId).failure) && coordinates == old(coordinates)
      ensures SpotAccess(spots, caller, spotId).Ok? ==>
        reply == Ok(|points|) && coordinates == ReplaceCoordinates(old(coordinates), spotId, points)
    {
      var found := FindSpot(spots, spotId);
      if found.None? {
        reply := Fail(Http(NotFound));
        return;
      }
      var spot := spots[found.value];
      if caller.role != ADMIN && caller.id != spot.userId {
        reply := Fail(Http(Unauthorized));
        return;
      }
      coordinates := WithoutCoordinatesOf(coordinates, spotId);
      var rows := CoordinateRows(spotId, points);
      coordinates := coordinates + rows;
      reply := Ok(|rows|);
    }

    /** `removeVideosController`: deletes every video of the spot. The reply
        is the count `deleteMany` reports. */
    method RemoveVideos(spotId: string) returns (reply: Reply<nat>)
      requires Valid()
      modifies this`videos
      ensures Valid()
      ensures videos == WithoutVideosOf(old(videos), spotId)
      ensures reply == Ok(|VideosOf(old(videos), spotId)|)
    {
      var before := videos;
      videos := WithoutVideosOf(videos, spotId);
      RemoveVideosTouchesOnlyThatSpot(before, spotId, spotId);
      reply := Ok(|before| - |videos|);
    }

    /** `deleteCoordinatesController`: deletes every coordinate of the spot.
        The reply is the count `deleteMany` reports. */
    method DeleteCoordinates(spotId: string) returns (reply: Reply<nat>)
      requires Valid()
      modifies this`coordinates
      ensures Valid()
      ensures coordinates == WithoutCoordinatesOf(old(coordinates), spotId)
      ensures reply == Ok(|CoordinatesOf(old(coordinates), spotId)|)
    {
      var before := coordinates;
      coordinates := WithoutCoordinatesOf(coordinates, spotId);
      DeleteCoordinatesTouchesOnlyThatSpot(before, spotId, spotId);
      reply := Ok(|before| - |coordinates|);
    }
  }
}
