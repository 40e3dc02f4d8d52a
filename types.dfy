/**
 * The records the conflation worker reads and writes, as values.
 *
 * Every JSON document the worker handles (an input line, a candidate row
 * returned by the persistent store, an output line, a staged row) is a
 * plain value here; the geometry is an opaque GeoJSON point.
 */
module ConflateTypes {

  datatype Option<+T> = None | Some(value: T)

  /** A GeoJSON point: longitude and latitude. */
  datatype Point = Point(lon: real, lat: real)

  /** One entry of a feature's `street` list. */
  datatype Street = Street(display: string, priority: int)

  /** An address feature's `properties`; `source` may be absent. */
  datatype Props = Props(number: string, street: seq<Street>, source: Option<string>)

  /** An incoming address feature (a line of the input, after parsing and mapping). */
  datatype Feature = Feature(props: Props, geometry: Point)

  /** A record of the persistent store, as its candidate query rebuilds it. */
  datatype Known = Known(id: int, version: int, props: Props, geometry: Point)

  /**
   * One row of the candidate query: the stored `tokenized` value of each
   * of the record's names, and the record itself.
   */
  datatype Candidate = Candidate(tokenized: seq<string>, feat: Known)

  /**
   * What `compare` produces for one feature: a create record, a modify
   * record (a known record with an extended street list), or nothing.
   */
  datatype Decision =
    | Create(props: Props, geometry: Point)
    | Modify(id: int, version: int, props: Props, geometry: Point)
    | Drop

  /** A row of the staging table `modified`. */
  datatype Row = Row(id: int, version: int, props: Props, geometry: Point)

  /**
   * One result row of the staging table grouped by (id, version, geom):
   * the aggregated `props` of all its rows.
   */
  datatype Group = Group(id: int, version: int, members: seq<Props>, geometry: Point)

  /** The failures that end a worker's run. */
  datatype Error =
    | ParseError        // JSON.parse or the map function threw
    | StoreError        // a query against the database failed
    | InvalidOption(key: string)

  /** What parsing (and the optional map function) makes of one line. */
  datatype Decoded =
    | Malformed              // JSON.parse or the map function threw
    | NotActionable          // the map function returned an Error value
    | Parsed(feat: Feature)

  /**
   * The worker's collaborators, given as functions: the street tokenizer
   * (with the token table already applied), the distance in kilometres,
   * the line decoder and the candidate query (None when the query fails).
   */
  datatype Env = Env(
    tok: string -> string,
    dist: (Point, Point) -> real,
    decode: string -> Decoded,
    query: Feature -> Option<seq<Candidate>>)
}
