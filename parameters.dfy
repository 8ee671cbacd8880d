/** The positional parameter lists that the handlers bind to their SQL
    statements (`$1` is the first element of the list). What each placeholder
    is used for in the statement text is written down separately, as a
    template, and every list is proved to feed each placeholder the request
    field that use calls for. */
module Parameters {

  datatype Option<T> = None | Some(value: T)

  /** A request body after `JSON.parse`: its top-level fields. The values
      (numbers, strings, ...) are left abstract. */
  type Body<V> = map<string, V>

  /** Destructuring `const { key } = body`: the field's value, or `undefined`
      (None) when the body has no such field; the driver sends that as NULL. */
  function Field<V(==)>(b: Body<V>, key: string): Option<V> {
    if key in b then Some(b[key]) else None
  }

  /** What the statement text does with a placeholder. */
  datatype Use =
      /** inserted into, or assigned to, the column of this name */
    | Column(name: string)
      /** the first argument of the `point`-th `ST_MakePoint` */
    | PointX(point: nat)
      /** the second argument of the `point`-th `ST_MakePoint` */
    | PointY(point: nat)
      /** compared with the row id in `WHERE gid = $n` */
    | GidFilter

  /** The request fields that carry one point's coordinates. */
  datatype Coords = Coords(lon: string, lat: string)

  /** Placeholders `$1..$5` of the point insert. */
  const InsertPointSql: seq<Use> := [Column("province"), Column("name"), Column("info"), PointX(0), PointY(0)]
  /** Placeholders `$1..$6` of the point update. */
  const UpdatePointSql: seq<Use> := [Column("province"), Column("name"), Column("info"), PointX(0), PointY(0), GidFilter]
  /** Placeholders `$1..$6` of the route insert, whose line joins two points. */
  const InsertRouteSql: seq<Use> := [Column("start"), Column("end"), PointX(0), PointY(0), PointX(1), PointY(1)]
  /** The one placeholder of either delete. */
  const DeleteSql: seq<Use> := [GidFilter]

  const PointFields := [Coords("lon", "lat")]
  const RouteFields := [Coords("lon1", "lat1"), Coords("lon2", "lat2")]

  predicate Fits(u: Use, coords: seq<Coords>) {
    (u.PointX? || u.PointY?) ==> u.point < |coords|
  }

  /** The value a placeholder should receive. A column takes the request field
      of the same name; in SRID 4326 a point's x is its longitude and its y its
      latitude; the id filter takes `gid`. */
  function Intended<V(==)>(b: Body<V>, u: Use, coords: seq<Coords>): Option<V>
    requires Fits(u, coords)
  {
    match u
    case Column(c) => Field(b, c)
    case PointX(p) => Field(b, coords[p].lon)
    case PointY(p) => Field(b, coords[p].lat)
    case GidFilter => Field(b, "gid")
  }

  /** The list has one value per placeholder, and each placeholder (`$n` is
      index `n - 1`) receives what its use calls for. */
  predicate BindsAsIntended<V(==)>(params: seq<Option<V>>, sql: seq<Use>, b: Body<V>, coords: seq<Coords>) {
    |params| == |sql| &&
    forall i :: 0 <= i < |sql| ==> Fits(sql[i], coords) && params[i] == Intended(b, sql[i], coords)
  }

  /** The value bound to placeholder `$n`. */
  function Placeholder<V(==)>(params: seq<Option<V>>, n: nat): Option<V>
    requires 1 <= n <= |params|
  {
    params[n - 1]
  }

  /** The list for the point insert. */
  function InsertPointParams<V(==)>(b: Body<V>): (r: seq<Option<V>>)
    ensures BindsAsIntended(r, InsertPointSql, b, PointFields)
  {
    [Field(b, "province"), Field(b, "name"), Field(b, "info"), Field(b, "lon"), Field(b, "lat")]
  }

  /** The list for the point update. */
  function UpdatePointParams<V(==)>(b: Body<V>): (r: seq<Option<V>>)
    ensures BindsAsIntended(r, UpdatePointSql, b, PointFields)
  {
    [Field(b, "province"), Field(b, "name"), Field(b, "info"), Field(b, "lon"), Field(b, "lat"), Field(b, "gid")]
  }

  /** The list for the route insert. */
  function InsertRouteParams<V(==)>(b: Body<V>): (r: seq<Option<V>>)
    ensures BindsAsIntended(r, InsertRouteSql, b, RouteFields)
  {
    [Field(b, "start"), Field(b, "end"), Field(b, "lon1"), Field(b, "lat1"), Field(b, "lon2"), Field(b, "lat2")]
  }

  /** The list for either delete: the point delete and the route delete bind
      the same single value. */
  function DeleteParams<V(==)>(b: Body<V>): (r: seq<Option<V>>)
    ensures BindsAsIntended(r, DeleteSql, b, [])
  {
    [Field(b, "gid")]
  }

  /** Any list that binds the point insert as its SQL text uses the
      placeholders has `lon` as `$4` and `lat` as `$5`: `ST_MakePoint` takes
      the longitude first. */
  lemma InsertPointLonBeforeLat<V>(params: seq<Option<V>>, b: Body<V>)
    requires BindsAsIntended(params, InsertPointSql, b, PointFields)
    ensures |params| == 5
    ensures Placeholder(params, 4) == Field(b, "lon")
    ensures Placeholder(params, 5) == Field(b, "lat")
  {
    assert InsertPointSql[3] == PointX(0) && InsertPointSql[4] == PointY(0);
  }

  /** Any list that binds the point update as its SQL text uses the
      placeholders has six values: `lon` as `$4`, `lat` as `$5`, and the row
      id last, as `$6`. */
  lemma UpdatePointGidLast<V>(params: seq<Option<V>>, b: Body<V>)
    requires BindsAsIntended(params, UpdatePointSql, b, PointFields)
    ensures |params| == 6
    ensures Placeholder(params, 4) == Field(b, "lon")
    ensures Placeholder(params, 5) == Field(b, "lat")
    ensures Placeholder(params, 6) == Field(b, "gid")
  {
    assert UpdatePointSql[3] == PointX(0) && UpdatePointSql[4] == PointY(0) && UpdatePointSql[5] == GidFilter;
  }

  /** The route insert's SQL text leaves exactly one list: start, end, lon1,
      lat1, lon2, lat2, in that order. */
  lemma InsertRouteOrder<V>(params: seq<Option<V>>, b: Body<V>)
    requires BindsAsIntended(params, InsertRouteSql, b, RouteFields)
    ensures params ==
      [Field(b, "start"), Field(b, "end"), Field(b, "lon1"), Field(b, "lat1"), Field(b, "lon2"), Field(b, "lat2")]
  {
    assert InsertRouteSql[0] == Column("start") && InsertRouteSql[1] == Column("end");
    assert InsertRouteSql[2] == PointX(0) && InsertRouteSql[3] == PointY(0);
    assert InsertRouteSql[4] == PointX(1) && InsertRouteSql[5] == PointY(1);
  }

  /** A template fixes its list: two lists that both bind a statement as
      intended, for the same body, are the same list. */
  lemma TemplateFixesList<V>(p: seq<Option<V>>, q: seq<Option<V>>, sql: seq<Use>, b: Body<V>, coords: seq<Coords>)
    requires BindsAsIntended(p, sql, b, coords)
    requires BindsAsIntended(q, sql, b, coords)
    ensures p == q
  {
    assert forall i :: 0 <= i < |p| ==> p[i] == q[i];
  }

  /** Fields the point insert does not destructure, such as `owner`, change
      nothing that is bound. */
  lemma InsertPointIgnoresOtherFields<V>(b: Body<V>, key: string, v: V)
    requires key !in {"province", "name", "info", "lon", "lat"}
    ensures InsertPointParams(b[key := v]) == InsertPointParams(b)
  {
  }
}
