/**
 * The query generator: for every table of a schema, the annotated queries it prints, and
 * which of them it prints given the table's columns, primary keys, foreign keys and rowid
 * flag. The schema metadata is input data; `pluralize.singular` is an arbitrary function.
 *
 * Each query is printed as three lines (its header, its SQL, an empty line). A helper that
 * throws while a line is being built ends the program, after the lines already printed.
 */
module Generator {
  import opened Wrappers
  import opened Identifiers

  datatype ForeignKey = ForeignKey(table: string, from: string)

  datatype TableInfo = TableInfo(
    name: string,
    columns: seq<string>,
    keys: seq<string>,
    foreignKeys: seq<ForeignKey>,
    withoutRowId: bool)

  /** An entry of the schema listing: its type and, when that is `table`, the table's metadata. */
  datatype SchemaObject = SchemaObject(objType: string, table: TableInfo)

  /** The queries of a table, in the order they are printed. */
  datatype Role = ByKey | ByForeignKeys | AllByForeignKeys | AllRows | InsertRow | UpdateRow | MakeRow

  function Rank(r: Role): nat {
    match r
    case ByKey => 0
    case ByForeignKeys => 1
    case AllByForeignKeys => 2
    case AllRows => 3
    case InsertRow => 4
    case UpdateRow => 5
    case MakeRow => 6
  }

  /** The kind word in the role's header. */
  function KindWord(r: Role): string {
    match r
    case ByKey => "get"
    case ByForeignKeys => "get"
    case AllByForeignKeys => "all"
    case AllRows => "all"
    case InsertRow => "insert"
    case UpdateRow => "run"
    case MakeRow => "insert"
  }

  /**
   * One printed query: the name in its header and its SQL line, each `None` when building
   * it throws.
   */
  datatype Query = Query(role: Role, name: Option<string>, sql: Option<string>)

  function Prefix(p: string, o: Option<string>): Option<string> {
    match o
    case None => None
    case Some(s) => Some(p + s)
  }

  function Suffix(o: Option<string>, p: string): Option<string> {
    match o
    case None => None
    case Some(s) => Some(s + p)
  }

  function Both(a: Option<string>, b: Option<string>): Option<string> {
    if a.Some? && b.Some? then Some(a.value + b.value) else None
  }

  /** `-- :name <name> :<kind>`. */
  function HeaderText(name: Option<string>, r: Role): (h: Option<string>)
    ensures h.Some? <==> name.Some?
    ensures h.Some? ==> h.value == "-- :name " + name.value + " :" + KindWord(r)
  {
    Suffix(Prefix("-- :name ", name), " :" + KindWord(r))
  }

  /** The singular names of the tables the foreign keys refer to, in their order. */
  function Referenced(t: TableInfo, singular: string -> string): seq<string>
  {
    seq(|t.foreignKeys|, i requires 0 <= i < |t.foreignKeys| => singular(t.foreignKeys[i].table))
  }

  /** `foreignKeys.map(k => camelCase(pluralize.singular(k.table))).join('And')`. */
  function Others(t: TableInfo, singular: string -> string): (o: Option<string>)
    ensures o.Some? <==> AllSeparated(Referenced(t, singular))
  {
    match MapAll(CamelCase, Referenced(t, singular))
    case None => None
    case Some(names) => Some(Join(names, "And"))
  }

  /** Every string of `xs` splits on `_` into non-empty segments. */
  predicate AllSeparated(xs: seq<string>) {
    forall i | 0 <= i < |xs| :: WellSeparated(xs[i])
  }

  /** The referenced names, joined, keep no `_`. */
  lemma OthersAvoidUnderscore(t: TableInfo, singular: string -> string)
    requires Others(t, singular).Some?
    ensures '_' !in Others(t, singular).value
  {
    var referenced := Referenced(t, singular);
    var names := MapAll(CamelCase, referenced).value;
    forall i | 0 <= i < |names| ensures '_' !in names[i] {
      CamelCaseShape(referenced[i]);
    }
    JoinAvoids(names, "And", '_');
  }

  /** `foreignKeys.map(k => k.from)`. */
  function ForeignKeyColumns(t: TableInfo): seq<string>
  {
    seq(|t.foreignKeys|, i requires 0 <= i < |t.foreignKeys| => t.foreignKeys[i].from)
  }

  /** `select * from <table> where <where(keys)>;`. */
  function SelectWhere(t: TableInfo, keys: seq<string>): Option<string>
  {
    Suffix(Prefix("select * from " + t.name + " where ", Where(keys)), ";")
  }

  /** `insert into <table> (<cols>) values (<params(cols)>);`. */
  function InsertInto(t: TableInfo, cols: seq<string>): Option<string>
  {
    match Params(cols)
    case None => None
    case Some(ps) => Some("insert into " + t.name + " (" + Join(cols, ", ") + ") values (" + Join(ps, ", ") + ");")
  }

  /** `update <table> set (<nonKeys>) = (<params(nonKeys)>) where <where(keys)>`, without a `;`. */
  function UpdateSet(t: TableInfo): Option<string>
  {
    var nonKeys := NonKeys(t.columns, t.keys);
    match Params(nonKeys)
    case None => None
    case Some(ps) =>
      Prefix("update " + t.name + " set (" + Join(nonKeys, ", ") + ") = (" + Join(ps, ", ") + ") where ", Where(t.keys))
  }

  /** When building a role's header name does not throw: every name it camel-cases is well separated. */
  predicate NameDefined(t: TableInfo, singular: string -> string, r: Role) {
    match r
    case ByKey => WellSeparated(singular(t.name))
    case ByForeignKeys => WellSeparated(singular(t.name)) && AllSeparated(Referenced(t, singular))
    case AllByForeignKeys => WellSeparated(t.name) && AllSeparated(Referenced(t, singular))
    case AllRows => WellSeparated(t.name)
    case InsertRow => WellSeparated(singular(t.name))
    case UpdateRow => WellSeparated(singular(t.name))
    case MakeRow => WellSeparated(singular(t.name))
  }

  /** When building a role's SQL does not throw: every column it turns into a parameter is well separated. */
  predicate SqlDefined(t: TableInfo, r: Role) {
    match r
    case ByKey => AllSeparated(t.keys)
    case ByForeignKeys => AllSeparated(ForeignKeyColumns(t))
    case AllByForeignKeys => AllSeparated(ForeignKeyColumns(t))
    case AllRows => true
    case InsertRow => AllSeparated(t.columns)
    case UpdateRow => AllSeparated(NonKeys(t.columns, t.keys)) && AllSeparated(t.keys)
    case MakeRow => AllSeparated(NonKeys(t.columns, t.keys))
  }

  /** `<a>For<others>` is built when both parts are, and keeps no `_` when neither has one. */
  lemma ForName(a: Option<string>, t: TableInfo, singular: string -> string)
    requires a.Some? ==> '_' !in a.value
    ensures Both(Suffix(a, "For"), Others(t, singular)).Some? <==> a.Some? && AllSeparated(Referenced(t, singular))
    ensures Both(Suffix(a, "For"), Others(t, singular)).Some? ==> '_' !in Both(Suffix(a, "For"), Others(t, singular)).value
  {
    if a.Some? && Others(t, singular).Some? {
      OthersAvoidUnderscore(t, singular);
    }
  }

  /**
   * The query of one role for the table. Its header name is built exactly when the names it
   * camel-cases are well separated, and then has no `_`; its SQL is built exactly when the
   * columns it turns into parameters are well separated.
   */
  function QueryFor(t: TableInfo, singular: string -> string, r: Role): (q: Query)
    ensures q.role == r
    ensures q.name.Some? <==> NameDefined(t, singular, r)
    ensures q.name.Some? ==> '_' !in q.name.value
    ensures q.sql.Some? <==> SqlDefined(t, r)
  {
    Query(r, NameFor(t, singular, r), SqlFor(t, r))
  }

  /** The name in the header of the role's query. */
  function NameFor(t: TableInfo, singular: string -> string, r: Role): (n: Option<string>)
    ensures n.Some? <==> NameDefined(t, singular, r)
    ensures n.Some? ==> '_' !in n.value
  {
    var one := singular(t.name);
    match r
    case ByKey =>
      LowerCamelCaseShape(one);
      LowerCamelCase(one)
    case ByForeignKeys =>
      LowerCamelCaseShape(one);
      ForName(LowerCamelCase(one), t, singular);
      Both(Suffix(LowerCamelCase(one), "For"), Others(t, singular))
    case AllByForeignKeys =>
      LowerCamelCaseShape(t.name);
      ForName(LowerCamelCase(t.name), t, singular);
      Both(Suffix(LowerCamelCase(t.name), "For"), Others(t, singular))
    case AllRows =>
      LowerCamelCaseShape(t.name);
      LowerCamelCase(t.name)
    case InsertRow =>
      if CamelCase(one).Some? then CamelCaseShape(one); Prefix("insert", CamelCase(one)) else None
    case UpdateRow =>
      if CamelCase(one).Some? then CamelCaseShape(one); Prefix("update", CamelCase(one)) else None
    case MakeRow =>
      if CamelCase(one).Some? then CamelCaseShape(one); Prefix("make", CamelCase(one)) else None
  }

  /** The SQL line of the role's query. */
  function SqlFor(t: TableInfo, r: Role): (o: Option<string>)
    ensures o.Some? <==> SqlDefined(t, r)
  {
    match r
    case ByKey => SelectWhere(t, t.keys)
    case ByForeignKeys => SelectWhere(t, ForeignKeyColumns(t))
    case AllByForeignKeys => SelectWhere(t, ForeignKeyColumns(t))
    case AllRows => Some("select * from " + t.name + ";")
    case InsertRow => InsertInto(t, t.columns)
    case UpdateRow => UpdateSet(t)
    case MakeRow => InsertInto(t, NonKeys(t.columns, t.keys))
  }

  /**
   * What the emission rules look at: whether the table has primary keys, foreign keys and
   * columns outside its key, and whether it has a rowid.
   */
  datatype Traits = Traits(keyed: bool, referencing: bool, hasNonKeys: bool, rowid: bool)

  function TraitsOf(t: TableInfo): Traits {
    Traits(|t.keys| > 0, |t.foreignKeys| > 0, |NonKeys(t.columns, t.keys)| > 0, !t.withoutRowId)
  }

  /** Whether a table with these traits gets a query of this role. */
  predicate Emits(f: Traits, r: Role) {
    match r
    case ByKey => f.keyed
    case ByForeignKeys => f.referencing
    case AllByForeignKeys => f.referencing
    case AllRows => true
    case InsertRow => true
    case UpdateRow => f.keyed && f.hasNonKeys
    case MakeRow => f.rowid
  }

  /** The roles `r` stands for once the condition `when` guarding it has been tested. */
  function When(when: bool, r: Role): seq<Role> {
    if when then [r] else []
  }

  /** The roles in the order the generator tests their conditions. */
  const Order: seq<Role> := [ByKey, ByForeignKeys, AllByForeignKeys, AllRows, InsertRow, UpdateRow, MakeRow]

  /** The roles of `rs` whose rule holds, in their order. */
  function Select(f: Traits, rs: seq<Role>): seq<Role>
  {
    if rs == [] then [] else Select(f, rs[..|rs| - 1]) + When(Emits(f, rs[|rs| - 1]), rs[|rs| - 1])
  }

  /** The roles of the queries, in the order the generator's conditions print them. */
  function RolesFor(f: Traits): seq<Role>
  {
    Select(f, Order)
  }

  /** Testing one more condition adds its role when it holds. */
  lemma SelectStep(f: Traits, k: nat)
    requires k < |Order|
    ensures Select(f, Order[..k + 1]) == Select(f, Order[..k]) + When(Emits(f, Order[k]), Order[k])
  {
    assert Order[..k + 1][..k] == Order[..k];
  }

  function PlannedRoles(t: TableInfo): seq<Role> {
    RolesFor(TraitsOf(t))
  }

  /** The queries of the given roles, in their order. */
  function QueriesFor(t: TableInfo, singular: string -> string, rs: seq<Role>): (qs: seq<Query>)
    ensures |qs| == |rs|
    ensures forall i | 0 <= i < |rs| :: qs[i] == QueryFor(t, singular, rs[i])
  {
    if rs == [] then [] else QueriesFor(t, singular, rs[..|rs| - 1]) + [QueryFor(t, singular, rs[|rs| - 1])]
  }

  lemma QueriesForSnoc(t: TableInfo, singular: string -> string, rs: seq<Role>, r: Role)
    ensures QueriesFor(t, singular, rs + [r]) == QueriesFor(t, singular, rs) + [QueryFor(t, singular, r)]
  {
    assert (rs + [r])[..|rs|] == rs;
  }

  /** The table's queries, one per planned role. */
  function Planned(t: TableInfo, singular: string -> string): (qs: seq<Query>)
    ensures |qs| == |PlannedRoles(t)|
    ensures forall i | 0 <= i < |qs| :: qs[i].role == PlannedRoles(t)[i]
  {
    QueriesFor(t, singular, PlannedRoles(t))
  }

  /** Ranks strictly increase along the roles. */
  predicate InOrder(rs: seq<Role>) {
    forall i, j | 0 <= i < j < |rs| :: Rank(rs[i]) < Rank(rs[j])
  }

  /** The selected roles are exactly those of `rs` whose rule holds. */
  lemma {:induction false} SelectMembers(f: Traits, rs: seq<Role>)
    ensures forall r :: r in Select(f, rs) <==> r in rs && Emits(f, r)
  {
    if rs != [] {
      var init := rs[..|rs| - 1];
      SelectMembers(f, init);
      assert rs == init + [rs[|rs| - 1]];
    }
  }

  /** The roles printed are exactly those whose rule holds. */
  lemma RolesForRules(f: Traits, r: Role)
    ensures r in RolesFor(f) <==> Emits(f, r)
  {
    SelectMembers(f, Order);
    assert r in Order by {
      match r
      case ByKey => assert Order[0] == r;
      case ByForeignKeys => assert Order[1] == r;
      case AllByForeignKeys => assert Order[2] == r;
      case AllRows => assert Order[3] == r;
      case InsertRow => assert Order[4] == r;
      case UpdateRow => assert Order[5] == r;
      case MakeRow => assert Order[6] == r;
    }
  }

  /** All ranks of the run lie in `[lo, hi)`. */
  predicate RanksWithin(rs: seq<Role>, lo: nat, hi: nat) {
    forall i | 0 <= i < |rs| :: lo <= Rank(rs[i]) < hi
  }

  /** Joining a run below `m` to a run from `m` on keeps rank order. */
  lemma InOrderConcat(a: seq<Role>, b: seq<Role>, lo: nat, m: nat, hi: nat)
    requires InOrder(a) && InOrder(b)
    requires lo <= m <= hi
    requires RanksWithin(a, lo, m) && RanksWithin(b, m, hi)
    ensures InOrder(a + b) && RanksWithin(a + b, lo, hi)
  {
    forall i, j | 0 <= i < j < |a + b| ensures Rank((a + b)[i]) < Rank((a + b)[j]) {
      if j < |a| {
        assert (a + b)[i] == a[i] && (a + b)[j] == a[j];
      } else if i < |a| {
        assert (a + b)[i] == a[i] && (a + b)[j] == b[j - |a|];
      } else {
        assert (a + b)[i] == b[i - |a|] && (a + b)[j] == b[j - |a|];
      }
    }
    forall i | 0 <= i < |a + b| ensures lo <= Rank((a + b)[i]) < hi {
      if i < |a| {
        assert (a + b)[i] == a[i];
      } else {
        assert (a + b)[i] == b[i - |a|];
      }
    }
  }

  /** A guarded role of the next rank keeps the roles so far in order. */
  lemma WhenInOrder(rs: seq<Role>, when: bool, r: Role)
    requires InOrder(rs) && RanksWithin(rs, 0, Rank(r))
    ensures InOrder(rs + When(when, r)) && RanksWithin(rs + When(when, r), 0, Rank(r) + 1)
  {
    InOrderConcat(rs, When(when, r), 0, Rank(r), Rank(r) + 1);
  }

  /** Selecting from roles in rank order keeps rank order. */
  lemma {:induction false} SelectInOrder(f: Traits, rs: seq<Role>)
    requires InOrder(rs)
    ensures InOrder(Select(f, rs))
  {
    if rs != [] {
      var init, last := rs[..|rs| - 1], rs[|rs| - 1];
      SelectInOrder(f, init);
      SelectMembers(f, init);
      var s := Select(f, init);
      forall i | 0 <= i < |s| ensures 0 <= Rank(s[i]) < Rank(last) {
        assert s[i] in init;
        var j :| 0 <= j < |init| && init[j] == s[i];
        assert rs[j] == s[i];
      }
      WhenInOrder(s, Emits(f, last), last);
    }
  }

  /** Each role is printed at most once, in the fixed order of the roles. */
  lemma RolesForInOrder(f: Traits)
    ensures InOrder(RolesFor(f))
  {
    SelectInOrder(f, Order);
  }

  /**
   * The emission rules: the table gets a query of role `r` exactly when the rule for `r`
   * holds, at most one of each, in the fixed order of the roles.
   */
  lemma EmissionRules(t: TableInfo, singular: string -> string, r: Role)
    ensures (exists i | 0 <= i < |Planned(t, singular)| :: Planned(t, singular)[i].role == r) <==> Emits(TraitsOf(t), r)
    ensures forall i, j | 0 <= i < j < |Planned(t, singular)| ::
              Rank(Planned(t, singular)[i].role) < Rank(Planned(t, singular)[j].role)
  {
    var rs := PlannedRoles(t);
    var qs := Planned(t, singular);
    RolesForRules(TraitsOf(t), r);
    RolesForInOrder(TraitsOf(t));
    if Emits(TraitsOf(t), r) {
      var i :| 0 <= i < |rs| && rs[i] == r;
      assert qs[i].role == r;
    }
  }

  /** Every table gets its all-rows query and its insert query. */
  lemma AlwaysEmitted(t: TableInfo, singular: string -> string)
    ensures exists i | 0 <= i < |Planned(t, singular)| :: Planned(t, singular)[i].role == AllRows
    ensures exists i | 0 <= i < |Planned(t, singular)| :: Planned(t, singular)[i].role == InsertRow
  {
    EmissionRules(t, singular, AllRows);
    EmissionRules(t, singular, InsertRow);
  }

  /** What the program has printed, and whether it is still running. */
  datatype Output = Output(lines: seq<string>, complete: bool)

  /** The header line, once its name has been built. */
  function HeaderLineText(q: Query): Option<string> {
    HeaderText(q.name, q.role)
  }

  /** The three `console.log` calls of one query. */
  function PrintQuery(q: Query): (o: Output)
    ensures o.complete <==> q.name.Some? && q.sql.Some?
    ensures o.complete ==> o.lines == [HeaderLineText(q).value, q.sql.value, ""]
    ensures !o.complete ==> o.lines == if q.name.Some? then [HeaderLineText(q).value] else []
  {
    match HeaderLineText(q)
    case None => Output([], false)
    case Some(h) =>
      match q.sql
      case None => Output([h], false)
      case Some(s) => Output([h, s, ""], true)
  }

  /** Printing queries in order; the first throw stops the program. */
  function Printed(qs: seq<Query>): Output
  {
    if qs == [] then Output([], true)
    else
      var first := PrintQuery(qs[0]);
      if !first.complete then first
      else
        var rest := Printed(qs[1..]);
        Output(first.lines + rest.lines, rest.complete)
  }

  /** Printing two runs of queries is printing the first, then the second if nothing threw. */
  lemma {:induction false} PrintedConcat(a: seq<Query>, b: seq<Query>)
    ensures Printed(a + b)
         == if !Printed(a).complete then Printed(a)
            else Output(Printed(a).lines + Printed(b).lines, Printed(b).complete)
  {
    if a == [] {
      assert a + b == b;
    } else {
      assert (a + b)[0] == a[0];
      assert (a + b)[1..] == a[1..] + b;
      PrintedConcat(a[1..], b);
      if PrintQuery(a[0]).complete && Printed(a[1..]).complete {
        assert PrintQuery(a[0]).lines + Printed(a[1..]).lines + Printed(b).lines
            == PrintQuery(a[0]).lines + (Printed(a[1..]).lines + Printed(b).lines);
      }
    }
  }

  lemma PrintedSnoc(qs: seq<Query>, q: Query)
    requires Printed(qs).complete
    ensures Printed(qs + [q]) == Output(Printed(qs).lines + PrintQuery(q).lines, PrintQuery(q).complete)
  {
    PrintedConcat(qs, [q]);
    assert [q][1..] == [];
  }

  /** Once a query has thrown, nothing after it is printed. */
  lemma PrintedStops(a: seq<Query>, b: seq<Query>)
    requires !Printed(a).complete
    ensures Printed(a + b) == Printed(a)
  {
    PrintedConcat(a, b);
  }

  /** The output is complete exactly when no query throws. */
  lemma {:induction false} PrintedCompleteIff(qs: seq<Query>)
    ensures Printed(qs).complete <==> forall i | 0 <= i < |qs| :: qs[i].name.Some? && qs[i].sql.Some?
  {
    if qs != [] {
      PrintedCompleteIff(qs[1..]);
      assert forall i | 1 <= i < |qs| :: qs[1..][i - 1] == qs[i];
    }
  }

  /** When no query throws, the output is three lines per query: the header, the SQL, an empty line. */
  lemma PrintedLines(qs: seq<Query>)
    requires forall i | 0 <= i < |qs| :: qs[i].name.Some? && qs[i].sql.Some?
    ensures |Printed(qs).lines| == 3 * |qs|
    ensures forall i | 0 <= i < |qs| ::
              Printed(qs).lines[3 * i] == HeaderLineText(qs[i]).value
              && Printed(qs).lines[3 * i + 1] == qs[i].sql.value
              && Printed(qs).lines[3 * i + 2] == ""
  {
    PrintedLength(qs);
    forall i | 0 <= i < |qs|
      ensures Printed(qs).lines[3 * i] == HeaderLineText(qs[i]).value
      ensures Printed(qs).lines[3 * i + 1] == qs[i].sql.value
      ensures Printed(qs).lines[3 * i + 2] == ""
    {
      PrintedAt(qs, i);
    }
  }

  lemma {:induction false} PrintedLength(qs: seq<Query>)
    requires forall i | 0 <= i < |qs| :: qs[i].name.Some? && qs[i].sql.Some?
    ensures Printed(qs).complete && |Printed(qs).lines| == 3 * |qs|
  {
    if qs != [] {
      assert forall i | 1 <= i < |qs| :: qs[1..][i - 1] == qs[i];
      PrintedLength(qs[1..]);
    }
  }

  /** The three lines of query `i` of an output where no query throws. */
  lemma {:induction false} PrintedAt(qs: seq<Query>, i: nat)
    requires forall i | 0 <= i < |qs| :: qs[i].name.Some? && qs[i].sql.Some?
    requires i < |qs|
    ensures 3 * i + 2 < |Printed(qs).lines|
    ensures Printed(qs).lines[3 * i] == HeaderLineText(qs[i]).value
    ensures Printed(qs).lines[3 * i + 1] == qs[i].sql.value
    ensures Printed(qs).lines[3 * i + 2] == ""
  {
    var init, last := qs[..|qs| - 1], qs[|qs| - 1];
    assert qs == init + [last];
    assert forall j | 0 <= j < |init| :: init[j] == qs[j];
    PrintedLength(init);
    PrintedSnoc(init, last);
    if i < |init| {
      PrintedAt(init, i);
    }
  }

  /**
   * The output is complete exactly when no query throws, and then it is three lines per
   * query: the header, the SQL, an empty line.
   */
  lemma PrintedComplete(qs: seq<Query>)
    ensures Printed(qs).complete <==> forall i | 0 <= i < |qs| :: qs[i].name.Some? && qs[i].sql.Some?
    ensures Printed(qs).complete ==>
              |Printed(qs).lines| == 3 * |qs|
              && forall i | 0 <= i < |qs| ::
                   Printed(qs).lines[3 * i] == HeaderLineText(qs[i]).value
                   && Printed(qs).lines[3 * i + 1] == qs[i].sql.value
                   && Printed(qs).lines[3 * i + 2] == ""
  {
    PrintedCompleteIff(qs);
    if forall i | 0 <= i < |qs| :: qs[i].name.Some? && qs[i].sql.Some? {
      PrintedLines(qs);
    }
  }

  /** Prints one query onto the output so far; `ok` is false once it has thrown. */
  method Print(out: seq<string>, q: Query) returns (out': seq<string>, ok: bool)
    ensures Output(out', ok) == Output(out + PrintQuery(q).lines, PrintQuery(q).complete)
  {
    ok := false;
    out' := out;
    var header := HeaderText(q.name, q.role);
    if header.Some? {
      out' := out' + [header.value];
      if q.sql.Some? {
        out' := out' + [q.sql.value, ""];
        ok := true;
      }
    }
  }

  /** The queries the first `k` guarded prints of the generator produce. */
  function PrintedUpTo(t: TableInfo, singular: string -> string, k: nat): Output
    requires k <= |Order|
  {
    Printed(QueriesFor(t, singular, Select(TraitsOf(t), Order[..k])))
  }

  /**
   * The generator's `k`-th guarded print: when its condition `when` holds, prints the query
   * of role `r` unless the program has already stopped (`ok` false), since a throw ends the
   * program.
   */
  method Emit(t: TableInfo, singular: string -> string, when: bool, r: Role, ghost k: nat,
              out: seq<string>, ok: bool)
    returns (out': seq<string>, ok': bool)
    requires k < |Order| && r == Order[k] && when == Emits(TraitsOf(t), r)
    requires Output(out, ok) == PrintedUpTo(t, singular, k)
    ensures Output(out', ok') == PrintedUpTo(t, singular, k + 1)
  {
    ghost var rs := Select(TraitsOf(t), Order[..k]);
    SelectStep(TraitsOf(t), k);
    if !when {
      assert rs + When(when, r) == rs;
      return out, ok;
    }
    var q := QueryFor(t, singular, r);
    QueriesForSnoc(t, singular, rs, r);
    if ok {
      PrintedSnoc(QueriesFor(t, singular, rs), q);
      out', ok' := Print(out, q);
    } else {
      PrintedStops(QueriesFor(t, singular, rs), [q]);
      out', ok' := out, ok;
    }
  }

  /** The body of the generator's loop for one table: its queries, under the emission rules. */
  method EmitTable(t: TableInfo, singular: string -> string) returns (out: seq<string>, ok: bool)
    ensures Output(out, ok) == Printed(Planned(t, singular))
  {
    var f := TraitsOf(t);
    out, ok := [], true;
    assert Order[..0] == [];
    for k := 0 to |Order|
      invariant Output(out, ok) == PrintedUpTo(t, singular, k)
    {
      out, ok := Emit(t, singular, Emits(f, Order[k]), Order[k], k, out, ok);
    }
    assert Order[..|Order|] == Order;
  }

  /** The queries for every table of the listing, in listing order. */
  function AllQueries(objects: seq<SchemaObject>, singular: string -> string): seq<Query>
  {
    if objects == [] then []
    else
      var last := objects[|objects| - 1];
      AllQueries(objects[..|objects| - 1], singular)
      + if last.objType == "table" then Planned(last.table, singular) else []
  }

  /** The queries of the first tables come first. */
  lemma {:induction false} AllQueriesPrefix(objects: seq<SchemaObject>, n: nat, singular: string -> string)
    requires n <= |objects|
    ensures AllQueries(objects[..n], singular) <= AllQueries(objects, singular)
  {
    if n < |objects| {
      var init := objects[..|objects| - 1];
      assert init[..n] == objects[..n];
      AllQueriesPrefix(init, n, singular);
    } else {
      assert objects[..n] == objects;
    }
  }

  lemma AllQueriesSnoc(objects: seq<SchemaObject>, i: nat, singular: string -> string)
    requires i < |objects|
    ensures AllQueries(objects[..i + 1], singular)
         == AllQueries(objects[..i], singular)
            + if objects[i].objType == "table" then Planned(objects[i].table, singular) else []
  {
    assert objects[..i + 1][..i] == objects[..i];
  }

  /** Once a table's queries have thrown, the later tables print nothing. */
  lemma AllQueriesStop(objects: seq<SchemaObject>, n: nat, singular: string -> string)
    requires n <= |objects|
    requires !Printed(AllQueries(objects[..n], singular)).complete
    ensures Printed(AllQueries(objects, singular)) == Printed(AllQueries(objects[..n], singular))
  {
    AllQueriesPrefix(objects, n, singular);
    PrefixStops(AllQueries(objects[..n], singular), AllQueries(objects, singular));
  }

  lemma PrefixStops(a: seq<Query>, all: seq<Query>)
    requires a <= all && !Printed(a).complete
    ensures Printed(all) == Printed(a)
  {
    assert all == a + all[|a|..];
    PrintedStops(a, all[|a|..]);
  }

  /** The generator's main loop: every table of the listing, in order. */
  method Puglify(objects: seq<SchemaObject>, singular: string -> string) returns (out: seq<string>, ok: bool)
    ensures Output(out, ok) == Printed(AllQueries(objects, singular))
  {
    out, ok := [], true;
    for i := 0 to |objects|
      invariant Printed(AllQueries(objects[..i], singular)) == Output(out, true)
    {
      var obj := objects[i];
      AllQueriesSnoc(objects, i, singular);
      var before := AllQueries(objects[..i], singular);
      if obj.objType == "table" {
        var lines, done := EmitTable(obj.table, singular);
        PrintedConcat(before, Planned(obj.table, singular));
        assert Printed(before + Planned(obj.table, singular)) == Output(out + lines, done);
        out := out + lines;
        if !done {
          AllQueriesStop(objects, i + 1, singular);
          return out, false;
        }
      } else {
        assert before + [] == before;
      }
    }
    assert objects[..|objects|] == objects;
  }
}
