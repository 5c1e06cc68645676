/** db.go: the sqlite cache (tables `destinations` and `titles`), the bulk
    INSERT statements, the transaction of commitAttraction, the reads of
    the cache and the export to an external database.

    Tables are sequences of rows. The outcome of every call into the
    database driver (Begin, Exec, Query, Commit, sql.Open) is a parameter:
    None or true for success, an error message or false for failure. */
/** The text of the bulk INSERT statements db.go builds, and the count of
    their `?` placeholders. */
module Sql {
  import opened GoLib

  /** The fixed heads of the two statements and their value groups. */
  const TitlesInsert: string := "INSERT INTO " + "titles " + "(compare, display) " + "VALUES "
  const TitlesGroup: string := "(?, ?)"
  const DestinationsInsert: string :=
    "INSERT INTO " + "destinations " + "(id, category, " + "description, " + "location, " + "copyright) " + "VALUES "
  const DestinationsGroup: string := "(?, ?, " + "?, ?, ?)"
  lemma {:induction false} NoOccurrences(s: string, c: char)
    requires c !in s
    ensures Occurrences(s, c) == 0
  {
    if |s| > 0 {
      NoOccurrences(s[1..], c);
    }
  }
  /** A statement made of a placeholder-free head and n groups of k
      placeholders joined by "," holds k * n placeholders. */
  lemma StatementPlaceholders(prefix: string, group: string, n: nat, k: nat)
    requires '?' !in prefix && Occurrences(group, '?') == k
    ensures Occurrences(prefix + Join(Repeat(group, n), ","), '?') == k * n
  {
    NoOccurrences(prefix, '?');
    NoOccurrences(",", '?');
    OccurrencesJoinRepeat(group, ",", n, '?');
    OccurrencesAppend(prefix, Join(Repeat(group, n), ","), '?');
  }
  /** The titles statement for n titles holds 2 * n placeholders. */
  lemma TitlesPlaceholdersMatchArgs(n: nat)
    ensures Occurrences(TitlesInsert + Join(Repeat(TitlesGroup, n), ","), '?') == 2 * n
  {
    assert Occurrences(TitlesGroup, '?') == 2;
    StatementPlaceholders(TitlesInsert, TitlesGroup, n, 2);
  }
  /** The destinations statement for n attractions holds 5 * n placeholders. */
  lemma DestinationsPlaceholdersMatchArgs(n: nat)
    ensures Occurrences(DestinationsInsert + Join(Repeat(DestinationsGroup, n), ","), '?') == 5 * n
  {
    DestinationsGroupPlaceholders();
    DestinationsInsertHasNone();
    StatementPlaceholders(DestinationsInsert, DestinationsGroup, n, 5);
  }

  lemma DestinationsGroupPlaceholders()
    ensures Occurrences(DestinationsGroup, '?') == 5
  {
    OccurrencesAppend("(?, ?, ", "?, ?, ?)", '?');
  }

  lemma DestinationsInsertHasNone()
    ensures '?' !in DestinationsInsert
  {
  }
}

module Store {
  import opened GoLib
  import opened Utils
  import opened Attractions
  import opened Sql

  // ---------------------------------------------------------------------
  // Rows and values

  /** A column value as sqlite returns it. */
  datatype Value = Text(s: string) | Null

  /** A nullable string as bound to a `?` placeholder. */
  function ValueOf(n: NullString): (v: Value)
    ensures v.Null? <==> !n.valid
    ensures n.valid ==> v == Text(n.str)
  {
    if n.valid then Text(n.str) else Null
  }

  /** The columns of the cache table `destinations`. */
  datatype Column = IdColumn | CategoryColumn | DescriptionColumn | LocationColumn | UrlColumn | CopyrightColumn

  /** One stored row of `destinations`, by column name. */
  datatype Row = Row(id: Value, category: Value, description: Value, location: Value,
                     url: Value, copyright: Value)

  function Get(row: Row, c: Column): Value
  {
    match c
    case IdColumn => row.id
    case CategoryColumn => row.category
    case DescriptionColumn => row.description
    case LocationColumn => row.location
    case UrlColumn => row.url
    case CopyrightColumn => row.copyright
  }

  /** The row `INSERT INTO destinations(id, category, description, location,
      url, copyright)` stores for an attraction. */
  function RowOf(a: Attraction): (r: Row)
    ensures forall c :: c in [IdColumn, CategoryColumn, DescriptionColumn, LocationColumn] ==> Get(r, c).Text?
    ensures Get(r, UrlColumn).Null? <==> !a.url.valid
    ensures Get(r, CopyrightColumn).Null? <==> !a.copyright.valid
  {
    Row(Text(a.id), Text(a.category), Text(a.description), Text(a.location),
        ValueOf(a.url), ValueOf(a.copyright))
  }

  /** The column order the INSERT of commitAttraction names. */
  const InsertOrder: seq<Column> := [IdColumn, CategoryColumn, DescriptionColumn, LocationColumn, UrlColumn, CopyrightColumn]

  /** The order in which readCache scans the columns of `SELECT *`. */
  const ScanOrder: seq<Column> := [IdColumn, CategoryColumn, LocationColumn, DescriptionColumn, CopyrightColumn, UrlColumn]

  /** `SELECT *`: the values of a row in the table's declared column order. */
  function Select(row: Row, schema: seq<Column>): (vs: seq<Value>)
    ensures |vs| == |schema|
    ensures forall k :: 0 <= k < |schema| ==> vs[k] == Get(row, schema[k])
  {
    seq(|schema|, k requires 0 <= k < |schema| => Get(row, schema[k]))
  }

  /** rows.Scan(&id, &category, &location, &description, &copyright, &url):
      the values go to the fields by position; NULL cannot be scanned into a
      string but can into a sql.NullString. The name is never scanned and
      keeps the zero value "" of the reused struct. */
  function ScanAttraction(vs: seq<Value>): (r: Option<Attraction>)
    ensures r.Some? <==> |vs| == 6 && vs[0].Text? && vs[1].Text? && vs[2].Text? && vs[3].Text?
    ensures r.Some? ==> (r.value.id == vs[0].s && r.value.category == vs[1].s
      && r.value.location == vs[2].s && r.value.description == vs[3].s && r.value.name == "")
    ensures r.Some? ==> ValueOf(r.value.copyright) == vs[4] && ValueOf(r.value.url) == vs[5]
  {
    if |vs| != 6 || vs[0].Null? || vs[1].Null? || vs[2].Null? || vs[3].Null? then None
    else Some(Attraction(vs[0].s, vs[1].s, vs[3].s, vs[2].s, "", ScanNullString(vs[5]), ScanNullString(vs[4])))
  }

  function ScanNullString(v: Value): (n: NullString)
    ensures ValueOf(n) == v
  {
    match v
    case Null => NullString("", false)
    case Text(s) => NullString(s, true)
  }

  // ---------------------------------------------------------------------
  // Titles

  datatype Title = Title(compare: string, display: string)

  datatype TitleValues = TitleValues(compares: seq<string>, displays: seq<string>)

  /** getTitleFields: two parallel slices, one field each. */
  method GetTitleFields(ts: seq<Title>) returns (tv: TitleValues)
    ensures |tv.compares| == |ts| && |tv.displays| == |ts|
    ensures forall i :: 0 <= i < |ts| ==> tv.compares[i] == ts[i].compare && tv.displays[i] == ts[i].display
  {
    var compares, displays := [], [];
    for i := 0 to |ts|
      invariant |compares| == i && |displays| == i
      invariant forall j :: 0 <= j < i ==> compares[j] == ts[j].compare && displays[j] == ts[j].display
    {
      compares := compares + [ts[i].compare];
      displays := displays + [ts[i].display];
    }
    tv := TitleValues(compares, displays);
  }

  // ---------------------------------------------------------------------
  // Bulk INSERT statements

  /** A bound argument: a string or a sql.NullString. */
  datatype Arg = Str(s: string) | Nullable(n: NullString)

  /** commitTitles' statement: one "(?, ?)" per title, joined by "," so that
      no comma trails; the arguments are compare and display, interleaved. */
  method BuildTitlesInsert(titles: seq<Title>) returns (stmt: string, args: seq<Arg>)
    ensures stmt == TitlesInsert + Join(Repeat(TitlesGroup, |titles|), ",")
    ensures |args| == 2 * |titles|
    ensures forall i :: 0 <= i < |titles| ==>
      args[2 * i] == Str(titles[i].compare) && args[2 * i + 1] == Str(titles[i].display)
  {
    var values: seq<string> := [];
    args := [];
    for i := 0 to |titles|
      invariant values == Repeat(TitlesGroup, i)
      invariant |args| == 2 * i
      invariant forall j :: 0 <= j < i ==>
        args[2 * j] == Str(titles[j].compare) && args[2 * j + 1] == Str(titles[j].display)
    {
      values := values + [TitlesGroup];
      args := args + [Str(titles[i].compare), Str(titles[i].display)];
    }
    stmt := TitlesInsert + Join(values, ",");
  }

  /** commitAttractionsToDB's statement: one five-placeholder group per
      attraction; the arguments are id, category, description, location and
      copyright. The url and the name are not sent. */
  method BuildDestinationsInsert(attractions: seq<Attraction>) returns (stmt: string, args: seq<Arg>)
    ensures stmt == DestinationsInsert + Join(Repeat(DestinationsGroup, |attractions|), ",")
    ensures |args| == 5 * |attractions|
    ensures forall i :: 0 <= i < |attractions| ==> args[5 * i .. 5 * i + 5] == DestinationArgs(attractions[i])
  {
    var values: seq<string> := [];
    args := [];
    for i := 0 to |attractions|
      invariant values == Repeat(DestinationsGroup, i)
      invariant |args| == 5 * i
      invariant forall j :: 0 <= j < i ==> args[5 * j .. 5 * j + 5] == DestinationArgs(attractions[j])
    {
      var old_args := args;
      args := args + DestinationArgs(attractions[i]);
      assert forall j :: 0 <= j < i ==> args[5 * j .. 5 * j + 5] == old_args[5 * j .. 5 * j + 5];
      assert args[5 * i .. 5 * i + 5] == DestinationArgs(attractions[i]);
      values := values + [DestinationsGroup];
    }
    stmt := DestinationsInsert + Join(values, ",");
  }

  function DestinationArgs(a: Attraction): (args: seq<Arg>)
    ensures |args| == 5
  {
    [Str(a.id), Str(a.category), Str(a.description), Str(a.location), Nullable(a.copyright)]
  }

  // ---------------------------------------------------------------------
  // The cache database

  /** readCache's result for the rows of `destinations` as `SELECT *`
      returns them in the table's column order `schema`. */
  function CacheContents(rows: seq<Row>, schema: seq<Column>): (r: Result<seq<Attraction>>)
    ensures r.Ok? ==> |r.value| == |rows| > 0
  {
    if exists i :: 0 <= i < |rows| && ScanAttraction(Select(rows[i], schema)).None? then Err("Failed to read row")
    else if |rows| == 0 then Err("Cache is empty")
    else Ok(seq(|rows|, i requires 0 <= i < |rows| => ScanAttraction(Select(rows[i], schema)).value))
  }

  class Cache {
    /** The declared column order of `destinations`, which `SELECT *` follows. */
    const schema: seq<Column>
    var destinations: seq<Row>
    var titles: seq<Title>

    constructor(schema: seq<Column>)
      ensures this.schema == schema && destinations == [] && titles == []
    {
      this.schema := schema;
      destinations := [];
      titles := [];
    }

    /** commitAttraction: both INSERTs run in one transaction; a failure of
        either rolls back and returns its error, so the tables change only
        when the commit succeeds, and then by exactly one row each. */
    method CommitAttraction(a: Attraction, beginErr: Option<string>, insertErr: Option<string>,
                            titlesErr: Option<string>, commitErr: Option<string>)
      returns (err: Option<string>)
      modifies this
      ensures err == (if beginErr.Some? then beginErr else if insertErr.Some? then insertErr
                      else if titlesErr.Some? then titlesErr else commitErr)
      ensures err.None? ==> destinations == old(destinations) + [RowOf(a)]
                            && titles == old(titles) + [Title(a.id, a.name)]
      ensures err.Some? ==> destinations == old(destinations) && titles == old(titles)
    {
      if beginErr.Some? {
        return beginErr;
      }
      // The transaction's view of the two tables.
      var txDestinations, txTitles := destinations, titles;
      if insertErr.Some? {
        return insertErr;
      }
      txDestinations := txDestinations + [RowOf(a)];
      var stmt, args := BuildTitlesInsert([Title(a.id, a.name)]);
      if titlesErr.Some? {
        return titlesErr;
      }
      txTitles := txTitles + [Title(a.id, a.name)];
      if commitErr.Some? {
        return commitErr;
      }
      destinations, titles := txDestinations, txTitles;
      return None;
    }

    /** readTitles: every row of `titles`, as parallel slices; zero rows is
        an empty result, not an error. */
    method ReadTitles(queryOk: bool) returns (r: Result<TitleValues>)
      ensures !queryOk ==> r == Err("Failed to read cache")
      ensures queryOk ==> r.Ok? && |r.value.compares| == |titles| && |r.value.displays| == |titles|
      ensures queryOk ==> forall i :: 0 <= i < |titles| ==>
        r.value.compares[i] == titles[i].compare && r.value.displays[i] == titles[i].display
    {
      if !queryOk {
        return Err("Failed to read cache");
      }
      var read: seq<Title> := [];
      for i := 0 to |titles|
        invariant read == titles[..i]
      {
        read := read + [titles[i]];
      }
      assert read == titles;
      var tv := GetTitleFields(read);
      return Ok(tv);
    }

    /** readCache: scans every row of `SELECT *` in order; a row that cannot
        be scanned aborts with "Failed to read row", and no rows at all is
        the error "Cache is empty". */
    method ReadCache(queryOk: bool) returns (r: Result<seq<Attraction>>)
      ensures !queryOk ==> r == Err("Failed to read cache")
      ensures queryOk ==> r == CacheContents(destinations, schema)
    {
      if !queryOk {
        return Err("Failed to read cache");
      }
      var attractions: seq<Attraction> := [];
      for i := 0 to |destinations|
        invariant |attractions| == i
        invariant forall j :: 0 <= j < i ==> ScanAttraction(Select(destinations[j], schema)).Some?
        invariant forall j :: 0 <= j < i ==> attractions[j] == ScanAttraction(Select(destinations[j], schema)).value
      {
        var scanned := ScanAttraction(Select(destinations[i], schema));
        if scanned.None? {
          assert ScanAttraction(Select(destinations[i], schema)).None?;
          return Err("Failed to read row");
        }
        attractions := attractions + [scanned.value];
      }
      if |attractions| == 0 {
        return Err("Cache is empty");
      }
      assert !exists i :: 0 <= i < |destinations| && ScanAttraction(Select(destinations[i], schema)).None?;
      ghost var rows, columns := destinations, schema;
      ghost var expected :=
        seq(|rows|, i requires 0 <= i < |rows| => ScanAttraction(Select(rows[i], columns)).value);
      assert attractions == expected;
      return Ok(attractions);
    }
  }

  // ---------------------------------------------------------------------
  // What a commit followed by readCache gives back

  /** When the table declares its columns in the order readCache scans them,
      an attraction read back is the one committed, except for its name. */
  lemma ScanOrderRoundTrip(a: Attraction)
    requires Canonical(a.url) && Canonical(a.copyright)
    ensures ScanAttraction(Select(RowOf(a), ScanOrder)) == Some(a.(name := ""))
  {
    var r := ScanAttraction(Select(RowOf(a), ScanOrder)).value;
    assert ValueOf(r.url) == ValueOf(a.url) && ValueOf(r.copyright) == ValueOf(a.copyright);
    NullStringFromValue(r.url, a.url);
    NullStringFromValue(r.copyright, a.copyright);
  }

  /** When the table declares its columns in the order the INSERT names them,
      readCache swaps description with location and url with copyright. */
  lemma InsertOrderSwapsFields(a: Attraction)
    requires Canonical(a.url) && Canonical(a.copyright)
    ensures ScanAttraction(Select(RowOf(a), InsertOrder)) ==
      Some(a.(name := "", description := a.location, location := a.description,
              url := a.copyright, copyright := a.url))
  {
    var r := ScanAttraction(Select(RowOf(a), InsertOrder)).value;
    assert ValueOf(r.url) == ValueOf(a.copyright) && ValueOf(r.copyright) == ValueOf(a.url);
    NullStringFromValue(r.url, a.copyright);
    NullStringFromValue(r.copyright, a.url);
  }

  /** Nullable strings as createNullString builds them are determined by
      their stored value. */
  lemma NullStringFromValue(n: NullString, m: NullString)
    requires ValueOf(n) == ValueOf(m)
    requires Canonical(n) && Canonical(m)
    ensures n == m
  {
  }

  /** A nullable string as createNullString builds it: an invalid one holds "". */
  predicate Canonical(n: NullString)
  {
    n.valid || n == NullString("", false)
  }

  /** A cache that holds rows reads back without error; an empty one is the
      error "Cache is empty". */
  lemma CacheContentsCases(rows: seq<Row>)
    ensures |rows| == 0 ==> CacheContents(rows, ScanOrder) == Err("Cache is empty")
    ensures forall i :: 0 <= i < |rows| ==> (ScanAttraction(Select(rows[i], ScanOrder)).Some?
      || CacheContents(rows, ScanOrder) == Err("Failed to read row"))
  {
  }

  // ---------------------------------------------------------------------
  // The external database

  /** The row `INSERT INTO destinations (id, category, description,
      location, copyright)` stores in the external database. */
  datatype ExternalRow = ExternalRow(id: string, category: string, description: string,
                                     location: string, copyright: NullString)

  function ExternalRowOf(a: Attraction): ExternalRow
  {
    ExternalRow(a.id, a.category, a.description, a.location, a.copyright)
  }

  class ExternalDb {
    var destinations: seq<ExternalRow>

    constructor(rows: seq<ExternalRow>)
      ensures destinations == rows
    {
      destinations := rows;
    }

    /** commitAttractionsToDB: inserts every attraction, then runs
        `DELETE FROM destinations` on this same external connection whatever
        the insert did, discards the delete's error and returns the
        insert's. The cache is not touched. */
    method CommitAttractionsToDB(attractions: seq<Attraction>, openErr: Option<string>,
                                 insertErr: Option<string>, deleteOk: bool)
      returns (err: Option<string>)
      modifies this
      ensures openErr.Some? ==> err == openErr && destinations == old(destinations)
      ensures openErr.None? ==> err == insertErr
      ensures openErr.None? && deleteOk ==> destinations == []
      ensures openErr.None? && !deleteOk ==>
        destinations == old(destinations) + (if insertErr.None? then Exported(attractions) else [])
    {
      if openErr.Some? {
        return openErr;
      }
      var stmt, args := BuildDestinationsInsert(attractions);
      if insertErr.None? {
        var rows: seq<ExternalRow> := [];
        for i := 0 to |attractions|
          invariant rows == Exported(attractions[..i])
        {
          assert attractions[..i + 1] == attractions[..i] + [attractions[i]];
          rows := rows + [ExternalRowOf(attractions[i])];
        }
        assert attractions[..|attractions|] == attractions;
        destinations := destinations + rows;
      }
      if deleteOk {
        destinations := [];
      }
      return insertErr;
    }
  }

  /** The external rows for a list of attractions, in order. */
  function Exported(attractions: seq<Attraction>): (rows: seq<ExternalRow>)
    ensures |rows| == |attractions|
    ensures forall i :: 0 <= i < |attractions| ==> rows[i] == ExternalRowOf(attractions[i])
  {
    if |attractions| == 0 then []
    else Exported(attractions[..|attractions| - 1]) + [ExternalRowOf(attractions[|attractions| - 1])]
  }

  // ---------------------------------------------------------------------
  // initializeTitles

  /** What json.Unmarshal of a description does to a map: a syntax error,
      or a JSON value that is neither an object nor null, stores nothing;
      the literal `null` sets the map to nil; an object stores its keys
      (a value of the wrong type under a key is stored as ""). */
  datatype Decoded = Malformed | JsonNull | Object(entries: map<string, string>)

  /** json.Unmarshal into the reused map `tmp`: an object adds its keys to
      what the map already holds, null empties it, anything else leaves it
      as it is. */
  function MergeDecoded(tmp: map<string, string>, decoded: Decoded): (r: map<string, string>)
    ensures decoded.Malformed? ==> r == tmp
    ensures decoded.JsonNull? ==> r == map[]
    ensures decoded.Object? ==> (forall k :: k in r <==> k in tmp || k in decoded.entries)
    ensures decoded.Object? ==> forall k :: k in decoded.entries ==> r[k] == decoded.entries[k]
    ensures decoded.Object? ==> forall k :: k in tmp && k !in decoded.entries ==> r[k] == tmp[k]
  {
    match decoded
    case Malformed => tmp
    case JsonNull => map[]
    case Object(m) => tmp + m
  }

  /** `tmp["name"]`, "" when the key is absent. */
  function NameIn(tmp: map<string, string>): string
  {
    if "name" in tmp then tmp["name"] else ""
  }

  /** The map after decoding the first |descs| descriptions. */
  function MapAfter(descs: seq<string>, unmarshal: string -> Decoded): map<string, string>
  {
    if |descs| == 0 then map[]
    else MergeDecoded(MapAfter(descs[..|descs| - 1], unmarshal), unmarshal(descs[|descs| - 1]))
  }

  /** The title initializeTitles builds for row i. */
  function TitleAt(descs: seq<string>, i: nat, unmarshal: string -> Decoded): Title
    requires i < |descs|
  {
    var name := NameIn(MapAfter(descs[..i + 1], unmarshal));
    Title(ToID(name), name)
  }

  function TitlesFor(descs: seq<string>, unmarshal: string -> Decoded): (ts: seq<Title>)
    ensures |ts| == |descs|
    ensures forall i :: 0 <= i < |descs| ==> ts[i] == TitleAt(descs, i, unmarshal)
  {
    seq(|descs|, i requires 0 <= i < |descs| => TitleAt(descs, i, unmarshal))
  }

  /** The texts of a column, when none of them is NULL. */
  function Texts(vs: seq<Value>): (r: Option<seq<string>>)
    ensures r.Some? <==> forall i :: 0 <= i < |vs| ==> vs[i].Text?
    ensures r.Some? ==> |r.value| == |vs| && forall i :: 0 <= i < |vs| ==> r.value[i] == vs[i].s
  {
    if |vs| == 0 then Some([])
    else if vs[0].Null? then None
    else match Texts(vs[1..])
      case None => None
      case Some(rest) => Some([vs[0].s] + rest)
  }

  /** initializeTitles: reads `SELECT description FROM destinations` of the
      target database (`descriptions`), builds one title per row from the
      description's "name" and appends them all to the cache's titles with
      one statement whose error is ignored. */
  method InitializeTitles(cache: Cache, targetOpenOk: bool, cacheOpenOk: bool, queryOk: bool,
                          descriptions: seq<Value>, unmarshal: string -> Decoded,
                          insertOk: bool)
    returns (msg: string)
    modifies cache
    ensures !targetOpenOk ==> msg == "Failed to open target database"
    ensures targetOpenOk && !cacheOpenOk ==> msg == "Failed to open cache"
    ensures targetOpenOk && cacheOpenOk && !queryOk ==> msg == "Failed to read target database"
    ensures targetOpenOk && cacheOpenOk && queryOk ==>
      if Texts(descriptions).None? then msg == "Failed to read row"
      else msg == "Done"
    ensures msg == "Done" && insertOk ==>
      cache.titles == old(cache.titles) + TitlesFor(Texts(descriptions).value, unmarshal)
    ensures msg != "Done" || !insertOk ==> cache.titles == old(cache.titles)
    ensures cache.destinations == old(cache.destinations)
  {
    if !targetOpenOk {
      return "Failed to open target database";
    }
    if !cacheOpenOk {
      return "Failed to open cache";
    }
    if !queryOk {
      return "Failed to read target database";
    }
    var tmp: map<string, string> := map[];
    var descs: seq<string> := [];
    var titles: seq<Title> := [];
    for i := 0 to |descriptions|
      invariant |descs| == i && forall j :: 0 <= j < i ==> descriptions[j] == Text(descs[j])
      invariant tmp == MapAfter(descs, unmarshal)
      invariant titles == TitlesFor(descs, unmarshal)
      invariant cache.titles == old(cache.titles) && cache.destinations == old(cache.destinations)
    {
      if descriptions[i].Null? {
        TextsNull(descriptions, i);
        return "Failed to read row";
      }
      var desc := descriptions[i].s;
      tmp := MergeDecoded(tmp, unmarshal(desc));
      var name := if "name" in tmp then tmp["name"] else "";
      titles := titles + [Title(ToID(name), name)];
      ghost var prev := descs;
      descs := descs + [desc];
      assert descs[..|descs| - 1] == prev;
      assert descs[..|prev| + 1] == descs;
      assert TitleAt(descs, |prev|, unmarshal) == Title(ToID(name), name);
      TitlesForExtend(prev, desc, unmarshal);
    }
    assert Texts(descriptions).Some? && Texts(descriptions).value == descs;
    var stmt, args := BuildTitlesInsert(titles);
    if insertOk {
      cache.titles := cache.titles + titles;
    }
    return "Done";
  }

  lemma TextsNull(vs: seq<Value>, i: nat)
    requires i < |vs| && vs[i].Null?
    ensures Texts(vs).None?
  {
  }

  lemma TitlesForExtend(descs: seq<string>, d: string, unmarshal: string -> Decoded)
    ensures TitlesFor(descs + [d], unmarshal) == TitlesFor(descs, unmarshal) + [TitleAt(descs + [d], |descs|, unmarshal)]
  {
    var e := descs + [d];
    forall i | 0 <= i < |descs|
      ensures TitleAt(e, i, unmarshal) == TitleAt(descs, i, unmarshal)
    {
      assert e[..i + 1] == descs[..i + 1];
    }
  }

  /** The map is not reset between rows: a description that stores no
      "name" key (a malformed one, or an object without it) repeats the
      previous row's title. */
  lemma StaleNameCarriesOver(descs: seq<string>, i: nat, unmarshal: string -> Decoded)
    requires 0 < i < |descs|
    requires unmarshal(descs[i]).Malformed? || (unmarshal(descs[i]).Object? && "name" !in unmarshal(descs[i]).entries)
    ensures TitleAt(descs, i, unmarshal) == TitleAt(descs, i - 1, unmarshal)
  {
    assert descs[..i + 1][..i] == descs[..i];
  }

  /** A description holding the JSON literal null sets the map to nil, so
      its row gets the empty title. */
  lemma NullGivesEmptyTitle(descs: seq<string>, i: nat, unmarshal: string -> Decoded)
    requires i < |descs| && unmarshal(descs[i]).JsonNull?
    ensures TitleAt(descs, i, unmarshal) == Title("", "")
  {
    assert descs[..i + 1][i] == descs[i];
  }

  /** A description whose "name" decodes is titled by that name and its id. */
  lemma FreshNameIsUsed(descs: seq<string>, i: nat, unmarshal: string -> Decoded)
    requires i < |descs|
    requires unmarshal(descs[i]).Object? && "name" in unmarshal(descs[i]).entries
    ensures TitleAt(descs, i, unmarshal).display == unmarshal(descs[i]).entries["name"]
    ensures TitleAt(descs, i, unmarshal).compare == ToID(unmarshal(descs[i]).entries["name"])
  {
    assert descs[..i + 1][i] == descs[i];
  }
}
