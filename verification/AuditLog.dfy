/** The insert-only audit log and its keyset query. */
module AuditLog {
  import opened Common
  import opened Pagination

  /** A row. Text columns stand for their collation classes, times for instants. */
  datatype Row = Row(id: nat, entry: Entry, createdAt: int)

  /** What is recorded; snapshots are JSON texts. */
  datatype Entry = Entry(
    actorId: Option<int>, targetType: Option<string>, targetId: Option<int>, action: string,
    beforeSnapshot: Option<string>, afterSnapshot: Option<string>,
    ipAddress: Option<string>, userAgent: Option<string>, requestId: Option<string>)

  /** The names of a user, by which an actor is listed. */
  datatype User = User(firstName: Option<string>, lastName: Option<string>)

  /** A row as it is listed: with the actor's name, without the agent and the request id. */
  datatype Listed = Listed(
    id: nat, actorId: Option<int>, actorName: Option<string>, action: string,
    targetType: Option<string>, targetId: Option<int>,
    beforeSnapshot: Option<string>, afterSnapshot: Option<string>,
    ipAddress: Option<string>, createdAt: int)

  datatype Filter = Filter(
    actorId: Option<int>, targetType: Option<string>, targetId: Option<int>,
    action: Option<string>, dateFrom: Option<int>, dateTo: Option<int>)

  /** One condition of the WHERE clause. */
  datatype Condition =
    | ActorIs(actorId: int)
    | TargetTypeIs(targetType: string)
    | TargetIs(targetId: int)
    | ActionIs(action: string)
    | CreatedFrom(from: int)
    | CreatedTo(to: int)
    | IdBelow(id: nat)

  /** A condition on a row; nothing equals a null column. */
  predicate Holds(c: Condition, r: Row) {
    match c
    case ActorIs(a) => r.entry.actorId == Some(a)
    case TargetTypeIs(t) => r.entry.targetType == Some(t)
    case TargetIs(t) => r.entry.targetId == Some(t)
    case ActionIs(a) => r.entry.action == a
    case CreatedFrom(t) => r.createdAt >= t
    case CreatedTo(t) => r.createdAt <= t
    case IdBelow(id) => r.id < id
  }

  predicate Satisfies(r: Row, where_: seq<Condition>) {
    forall c | c in where_ :: Holds(c, r)
  }

  /** The matching rows in descending order of a table kept in ascending order. */
  function Newest(table: seq<Row>, where_: seq<Condition>): seq<Row>
    decreases |table|
  {
    if table == [] then []
    else
      var last := table[|table| - 1];
      (if Satisfies(last, where_) then [last] else []) + Newest(table[..|table| - 1], where_)
  }

  /** `ORDER BY id DESC LIMIT n`. */
  function Query(table: seq<Row>, where_: seq<Condition>, n: nat): seq<Row> {
    var rows := Newest(table, where_);
    if |rows| <= n then rows else rows[..n]
  }

  /** An id filter that is absent or 0 is falsy, and so is an empty text. */
  predicate IdGiven(id: Option<int>) {
    id.Some? && id.value != 0
  }

  predicate TextGiven(text: Option<string>) {
    text.Some? && text.value != ""
  }

  function TargetConditions(f: Filter): seq<Condition> {
    (if IdGiven(f.actorId) then [ActorIs(f.actorId.value)] else [])
    + (if TextGiven(f.targetType) then [TargetTypeIs(f.targetType.value)] else [])
    + (if IdGiven(f.targetId) then [TargetIs(f.targetId.value)] else [])
  }

  function ActionConditions(f: Filter): seq<Condition> {
    (if TextGiven(f.action) then [ActionIs(f.action.value)] else [])
    + (if f.dateFrom.Some? then [CreatedFrom(f.dateFrom.value)] else [])
    + (if f.dateTo.Some? then [CreatedTo(f.dateTo.value)] else [])
  }

  /** The conditions of a filter, in the order they are pushed. */
  function FilterConditions(f: Filter): seq<Condition> {
    TargetConditions(f) + ActionConditions(f)
  }

  /** A cursor that does not decode, or decodes to no usable id, starts from the top. */
  function CursorConditions(codec: Codec, cursor: Option<string>): seq<Condition> {
    if cursor.None? || cursor.value == "" then []
    else
      match codec.decode(cursor.value)
      case None => []
      case Some(id) => if id == 0 then [] else [IdBelow(id)]
  }

  function Filled(texts: seq<Option<string>>): seq<string> {
    if texts == [] then []
    else (if TextGiven(texts[0]) then [texts[0].value] else []) + Filled(texts[1..])
  }

  function Joined(texts: seq<string>, separator: string): string {
    if texts == [] then ""
    else if |texts| == 1 then texts[0]
    else texts[0] + separator + Joined(texts[1..], separator)
  }

  /** `[first, last].filter(Boolean).join(' ')`, or nothing without either. */
  function NameOf(u: User): Option<string> {
    var names := Filled([u.firstName, u.lastName]);
    if names == [] then None else Some(Joined(names, " "))
  }

  /** The left join with the users, and the mapping of a row. */
  function ToDomain(users: map<int, User>, r: Row): Listed {
    var e := r.entry;
    Listed(r.id, e.actorId,
           if IdGiven(e.actorId) && e.actorId.value in users then NameOf(users[e.actorId.value]) else None,
           e.action, e.targetType, e.targetId, e.beforeSnapshot, e.afterSnapshot, e.ipAddress,
           r.createdAt)
  }

  /** A page with its rows mapped. */
  function DomainPage(users: map<int, User>, page: Page<Row>): Page<Listed> {
    Page(seq(|page.rows|, i requires 0 <= i < |page.rows| => ToDomain(users, page.rows[i])), page.meta)
  }

  /** One page of a table. */
  function ListPage(table: seq<Row>, codec: Codec, f: Filter, cursor: Option<string>, limit: nat)
    : Page<Row>
  {
    var where_ := FilterConditions(f) + CursorConditions(codec, cursor);
    BuildPageMeta(Query(table, where_, limit + 1), limit, (r: Row) => codec.encode(r.id))
  }

  /** Ids are positive and strictly ascending. */
  predicate AscendingIds(table: seq<Row>) {
    && (forall i | 0 <= i < |table| :: table[i].id > 0)
    && forall i, j | 0 <= i < j < |table| :: table[i].id < table[j].id
  }

  class AuditLogRepository {
    const codec: Codec
    var table: seq<Row>
    var nextId: nat
    var users: map<int, User>

    ghost predicate Valid()
      reads this
    {
      && AscendingIds(table) && nextId > 0
      && forall r | r in table :: r.id < nextId
    }

    constructor (codec: Codec, users: map<int, User>)
      ensures Valid() && table == [] && this.codec == codec && this.users == users
    {
      this.codec := codec;
      this.users := users;
      table := [];
      nextId := 1;
    }

    /** Inserts a row; `skipped` ids went to inserts that were rolled back. */
    method Record(entry: Entry, now: int, skipped: nat)
      requires Valid()
      modifies this
      ensures Valid()
      ensures users == old(users)
      ensures exists id | id >= old(nextId) :: table == old(table) + [Row(id, entry, now)]
    {
      var id := nextId + skipped;
      table := table + [Row(id, entry, now)];
      nextId := id + 1;
    }

    method List(f: Filter, cursor: Option<string>, limit: nat) returns (page: Page<Listed>)
      ensures page == DomainPage(users, ListPage(table, codec, f, cursor, limit))
      ensures Shows(page, ListPage(table, codec, f, cursor, limit), users)
    {
      var conditions := PushTargets(f, []);
      conditions := PushActions(f, conditions);
      assert conditions == FilterConditions(f);
      conditions := PushCursor(codec, cursor, conditions);
      var rows := Query(table, conditions, limit + 1);
      var cut := BuildPageMeta(rows, limit, (r: Row) => codec.encode(r.id));
      page := DomainPage(users, cut);
      DomainPageExact(users, cut);
    }

    static method PushCursor(codec: Codec, cursor: Option<string>, before: seq<Condition>)
      returns (conditions: seq<Condition>)
      ensures conditions == before + CursorConditions(codec, cursor)
    {
      conditions := before;
      if cursor.Some? && cursor.value != "" {
        var decoded := codec.decode(cursor.value);
        if decoded.Some? && decoded.value != 0 {
          conditions := conditions + [IdBelow(decoded.value)];
        }
      }
    }

    static method PushTargets(f: Filter, before: seq<Condition>) returns (conditions: seq<Condition>)
      ensures conditions == before + TargetConditions(f)
    {
      conditions := before;
      if IdGiven(f.actorId) {
        conditions := conditions + [ActorIs(f.actorId.value)];
      }
      if TextGiven(f.targetType) {
        conditions := conditions + [TargetTypeIs(f.targetType.value)];
      }
      if IdGiven(f.targetId) {
        conditions := conditions + [TargetIs(f.targetId.value)];
      }
    }

    static method PushActions(f: Filter, before: seq<Condition>) returns (conditions: seq<Condition>)
      ensures conditions == before + ActionConditions(f)
    {
      conditions := before;
      if TextGiven(f.action) {
        conditions := conditions + [ActionIs(f.action.value)];
      }
      if f.dateFrom.Some? {
        conditions := conditions + [CreatedFrom(f.dateFrom.value)];
      }
      if f.dateTo.Some? {
        conditions := conditions + [CreatedTo(f.dateTo.value)];
      }
    }
  }

  // ---------------------------------------------------------------- what is shown of a row

  /** The name of a user: both names with a space between, or the one there is, or none. */
  predicate IsNameOf(name: Option<string>, u: User) {
    var first := u.firstName.Some? && u.firstName.value != "";
    var last := u.lastName.Some? && u.lastName.value != "";
    && (name.Some? <==> first || last)
    && (first && last ==> name == Some(u.firstName.value + " " + u.lastName.value))
    && (first && !last ==> name == u.firstName)
    && (!first && last ==> name == u.lastName)
  }

  lemma NameExact(u: User)
    ensures IsNameOf(NameOf(u), u)
  {
    var both := [u.firstName, u.lastName];
    assert both[1..] == [u.lastName] && both[1..][1..] == [];
    assert Filled(both[1..]) == if TextGiven(u.lastName) then [u.lastName.value] else [];
    if TextGiven(u.firstName) && TextGiven(u.lastName) {
      assert Filled(both) == [u.firstName.value, u.lastName.value];
      assert Filled(both)[1..] == [u.lastName.value];
      assert Joined(Filled(both), " ") ==
             u.firstName.value + " " + Joined([u.lastName.value], " ");
    } else if TextGiven(u.firstName) {
      assert Filled(both) == [u.firstName.value];
    } else {
      assert Filled(both) == Filled(both[1..]);
    }
  }

  /** Every column of a row that is listed, and its actor's name if there is such a user. */
  predicate ShowsRow(l: Listed, r: Row, users: map<int, User>) {
    && l.id == r.id && l.createdAt == r.createdAt
    && l.actorId == r.entry.actorId && l.action == r.entry.action
    && l.targetType == r.entry.targetType && l.targetId == r.entry.targetId
    && l.beforeSnapshot == r.entry.beforeSnapshot && l.afterSnapshot == r.entry.afterSnapshot
    && l.ipAddress == r.entry.ipAddress
    && if l.actorId.Some? && l.actorId.value != 0 && l.actorId.value in users
       then IsNameOf(l.actorName, users[l.actorId.value])
       else l.actorName.None?
  }

  /** A page shows the rows of a cut page, one for one, under its metadata. */
  predicate Shows(page: Page<Listed>, cut: Page<Row>, users: map<int, User>) {
    && page.meta == cut.meta
    && |page.rows| == |cut.rows|
    && forall i | 0 <= i < |cut.rows| :: ShowsRow(page.rows[i], cut.rows[i], users)
  }

  lemma DomainPageExact(users: map<int, User>, cut: Page<Row>)
    ensures Shows(DomainPage(users, cut), cut, users)
  {
    forall i | 0 <= i < |cut.rows|
      ensures ShowsRow(DomainPage(users, cut).rows[i], cut.rows[i], users)
    {
      var actor := cut.rows[i].entry.actorId;
      if IdGiven(actor) && actor.value in users {
        NameExact(users[actor.value]);
      }
    }
  }

  /** An empty cursor, and one that decodes to no usable id, give the first page. */
  lemma MalformedCursorStartsOver(
      table: seq<Row>, codec: Codec, f: Filter, cursor: string, limit: nat)
    requires cursor == "" || codec.decode(cursor).None? || codec.decode(cursor) == Some(0)
    ensures ListPage(table, codec, f, Some(cursor), limit) == ListPage(table, codec, f, None, limit)
  {
  }

  // ---------------------------------------------------------------- what a filter selects

  /** A row matches a filter: it agrees with every field that is given, and not 0 or empty. */
  predicate Matches(f: Filter, r: Row) {
    && (f.actorId.Some? && f.actorId.value != 0 ==> r.entry.actorId == f.actorId)
    && (f.targetType.Some? && f.targetType.value != "" ==> r.entry.targetType == f.targetType)
    && (f.targetId.Some? && f.targetId.value != 0 ==> r.entry.targetId == f.targetId)
    && (f.action.Some? && f.action.value != "" ==> Some(r.entry.action) == f.action)
    && (f.dateFrom.Some? ==> f.dateFrom.value <= r.createdAt)
    && (f.dateTo.Some? ==> r.createdAt <= f.dateTo.value)
  }

  lemma SatisfiesConcat(r: Row, a: seq<Condition>, b: seq<Condition>)
    ensures Satisfies(r, a + b) <==> Satisfies(r, a) && Satisfies(r, b)
  {
    assert forall c :: c in a + b <==> c in a || c in b;
  }

  lemma SatisfiesOptional(r: Row, given: bool, c: Condition)
    ensures Satisfies(r, if given then [c] else []) <==> (given ==> Holds(c, r))
  {
    assert c in [c];
  }

  /** The pushed conditions select exactly the rows that match the filter. */
  lemma FilterExact(f: Filter, r: Row)
    ensures Satisfies(r, FilterConditions(f)) <==> Matches(f, r)
  {
    SatisfiesConcat(r, TargetConditions(f), ActionConditions(f));
    TargetsExact(f, r);
    ActionsExact(f, r);
  }

  lemma TargetsExact(f: Filter, r: Row)
    ensures Satisfies(r, TargetConditions(f)) <==>
            && (IdGiven(f.actorId) ==> r.entry.actorId == f.actorId)
            && (TextGiven(f.targetType) ==> r.entry.targetType == f.targetType)
            && (IdGiven(f.targetId) ==> r.entry.targetId == f.targetId)
  {
    var actor := if IdGiven(f.actorId) then [ActorIs(f.actorId.value)] else [];
    var kind := if TextGiven(f.targetType) then [TargetTypeIs(f.targetType.value)] else [];
    var target := if IdGiven(f.targetId) then [TargetIs(f.targetId.value)] else [];
    SatisfiesConcat(r, actor + kind, target);
    SatisfiesConcat(r, actor, kind);
    if IdGiven(f.actorId) {
      SatisfiesOptional(r, true, ActorIs(f.actorId.value));
    }
    if TextGiven(f.targetType) {
      SatisfiesOptional(r, true, TargetTypeIs(f.targetType.value));
    }
    if IdGiven(f.targetId) {
      SatisfiesOptional(r, true, TargetIs(f.targetId.value));
    }
  }

  lemma ActionsExact(f: Filter, r: Row)
    ensures Satisfies(r, ActionConditions(f)) <==>
            && (TextGiven(f.action) ==> Some(r.entry.action) == f.action)
            && (f.dateFrom.Some? ==> f.dateFrom.value <= r.createdAt)
            && (f.dateTo.Some? ==> r.createdAt <= f.dateTo.value)
  {
    var action := if TextGiven(f.action) then [ActionIs(f.action.value)] else [];
    var from := if f.dateFrom.Some? then [CreatedFrom(f.dateFrom.value)] else [];
    var to := if f.dateTo.Some? then [CreatedTo(f.dateTo.value)] else [];
    SatisfiesConcat(r, action + from, to);
    SatisfiesConcat(r, action, from);
    if TextGiven(f.action) {
      SatisfiesOptional(r, true, ActionIs(f.action.value));
    }
    if f.dateFrom.Some? {
      SatisfiesOptional(r, true, CreatedFrom(f.dateFrom.value));
    }
    if f.dateTo.Some? {
      SatisfiesOptional(r, true, CreatedTo(f.dateTo.value));
    }
  }

  // ---------------------------------------------------------------- rows below a cursor

  lemma NewestStep(table: seq<Row>, where_: seq<Condition>)
    requires table != []
    ensures var last, rest := table[|table| - 1], Newest(table[..|table| - 1], where_);
            Newest(table, where_) == if Satisfies(last, where_) then [last] + rest else rest
  {
    var rest := Newest(table[..|table| - 1], where_);
    assert [] + rest == rest;
  }

  lemma {:induction false} NewestMembers(table: seq<Row>, where_: seq<Condition>, r: Row)
    ensures r in Newest(table, where_) <==> r in table && Satisfies(r, where_)
    decreases |table|
  {
    if table != [] {
      var n := |table| - 1;
      NewestMembers(table[..n], where_, r);
      NewestStep(table, where_);
      assert table == table[..n] + [table[n]];
    }
  }

  lemma {:induction false} NewestDescends(table: seq<Row>, where_: seq<Condition>, i: nat, j: nat)
    requires AscendingIds(table) && i < j < |Newest(table, where_)|
    ensures Newest(table, where_)[j].id < Newest(table, where_)[i].id
    decreases |table|
  {
    var n := |table| - 1;
    var rest := Newest(table[..n], where_);
    NewestStep(table, where_);
    if !Satisfies(table[n], where_) {
      NewestDescends(table[..n], where_, i, j);
    } else if i > 0 {
      NewestDescends(table[..n], where_, i - 1, j - 1);
    } else {
      NewestMembers(table[..n], where_, rest[j - 1]);
      var p :| 0 <= p < n && table[p] == rest[j - 1];
    }
  }

  /** Exactly the matching rows are listed, newest first. */
  lemma NewestExact(table: seq<Row>, where_: seq<Condition>)
    requires AscendingIds(table)
    ensures var rows := Newest(table, where_);
            && (forall r :: r in rows <==> r in table && Satisfies(r, where_))
            && forall i, j | 0 <= i < j < |rows| :: rows[j].id < rows[i].id
  {
    var rows := Newest(table, where_);
    forall r ensures r in rows <==> r in table && Satisfies(r, where_) {
      NewestMembers(table, where_, r);
    }
    forall i, j | 0 <= i < j < |rows| ensures rows[j].id < rows[i].id {
      NewestDescends(table, where_, i, j);
    }
  }

  /** A condition that every row meets can be left out. */
  lemma {:induction false} BelowVacuous(table: seq<Row>, where_: seq<Condition>, id: nat)
    requires forall r | r in table :: r.id < id
    ensures Newest(table, where_ + [IdBelow(id)]) == Newest(table, where_)
  {
    if table != [] {
      var n := |table| - 1;
      BelowVacuous(table[..n], where_, id);
      assert table[n] in table;
      SatisfiesBelow(table[n], where_, id);
    }
  }

  lemma SatisfiesBelow(r: Row, where_: seq<Condition>, id: nat)
    ensures Satisfies(r, where_ + [IdBelow(id)]) <==> Satisfies(r, where_) && r.id < id
  {
    var all := where_ + [IdBelow(id)];
    assert all[|where_|] == IdBelow(id) && IdBelow(id) in all;
    assert forall c :: c in all <==> c in where_ || c == IdBelow(id);
    assert Holds(IdBelow(id), r) <==> r.id < id;
  }

  /** Below the id of the `k`-th newest row are the rows after it. */
  lemma {:induction false} BelowCuts(table: seq<Row>, where_: seq<Condition>, k: nat)
    requires AscendingIds(table) && k < |Newest(table, where_)|
    ensures var rows := Newest(table, where_);
            Newest(table, where_ + [IdBelow(rows[k].id)]) == rows[k + 1..]
    decreases |table|
  {
    var n := |table| - 1;
    var id := Newest(table, where_)[k].id;
    NewestStep(table, where_);
    NewestStep(table, where_ + [IdBelow(id)]);
    SatisfiesBelow(table[n], where_, id);
    if !Satisfies(table[n], where_) {
      BelowCuts(table[..n], where_, k);
    } else {
      var rest := Newest(table[..n], where_);
      ConsFrom(table[n], rest, k);
      if k == 0 {
        BelowVacuous(table[..n], where_, id);
      } else {
        ListedEarlier(table, where_, k - 1);
        BelowCuts(table[..n], where_, k - 1);
      }
    }
  }

  lemma ConsFrom<T>(first: T, rest: seq<T>, k: nat)
    requires k <= |rest|
    ensures ([first] + rest)[k + 1..] == rest[k..]
    ensures k > 0 ==> ([first] + rest)[k] == rest[k - 1]
  {
  }

  /** A row listed from the earlier ones has a smaller id than the last. */
  lemma ListedEarlier(table: seq<Row>, where_: seq<Condition>, k: nat)
    requires AscendingIds(table) && table != []
    requires k < |Newest(table[..|table| - 1], where_)|
    ensures Newest(table[..|table| - 1], where_)[k].id < table[|table| - 1].id
  {
    var earlier := table[..|table| - 1];
    var r := Newest(earlier, where_)[k];
    NewestMembers(earlier, where_, r);
    var p :| 0 <= p < |earlier| && earlier[p] == r;
  }

  /** Rows inserted later, with larger ids, do not appear below a cursor. */
  lemma {:induction false} InsertsInvisible(table: seq<Row>, larger: seq<Row>, where_: seq<Condition>, id: nat)
    requires table <= larger
    requires forall i | |table| <= i < |larger| :: larger[i].id >= id
    ensures Newest(larger, where_ + [IdBelow(id)]) == Newest(table, where_ + [IdBelow(id)])
    decreases |larger|
  {
    var n := |larger|;
    if n == |table| {
      assert larger == table;
    } else {
      InsertsInvisible(table, larger[..n - 1], where_, id);
      SatisfiesBelow(larger[n - 1], where_, id);
    }
  }

  // ---------------------------------------------------------------- the walk

  /** How a client gets a page: from the table as it is then, with a cursor. */
  type Fetch = (seq<Row>, Option<string>) -> Page<Row>

  /** Fetching pages of the audit log under one filter and limit. */
  function ListFetch(codec: Codec, f: Filter, limit: nat): Fetch {
    (table: seq<Row>, cursor: Option<string>) => ListPage(table, codec, f, cursor, limit)
  }

  /**
   * A client's walk: page `i` is fetched from table `i` with the cursor of the page before,
   * and the walk goes on only while there is more.
   */
  predicate IsWalk(
      tables: seq<seq<Row>>, pages: seq<Page<Row>>, fetch: Fetch, cursor: Option<string>)
    decreases |pages|
  {
    && |tables| == |pages| > 0
    && pages[0] == fetch(tables[0], cursor)
    && (|pages| > 1 ==>
          && pages[0].meta.hasMore
          && IsWalk(tables[1..], pages[1..], fetch, pages[0].meta.nextCursor))
  }

  /** Each table extends `start` by rows with larger ids. */
  ghost predicate GrowFrom(start: seq<Row>, tables: seq<seq<Row>>) {
    forall t | t in tables :: start <= t && AscendingIds(t)
  }

  function AllRows<R>(pages: seq<Page<R>>): seq<R> {
    if pages == [] then [] else pages[0].rows + AllRows(pages[1..])
  }

  /** How many pages `n` rows fill. */
  function PageCount(n: nat, limit: nat): (p: nat)
    requires limit > 0
    ensures p > 0
  {
    if n <= limit then 1 else 1 + PageCount(n - limit, limit)
  }

  /** That is one page for no rows, and otherwise the ceiling of `n / limit`. */
  lemma {:induction false} PageCountIsCeiling(n: nat, limit: nat)
    requires limit > 0 && n > 0
    ensures (PageCount(n, limit) - 1) * limit < n <= PageCount(n, limit) * limit
  {
    if n > limit {
      PageCountIsCeiling(n - limit, limit);
      var p := PageCount(n - limit, limit);
      assert (p + 1) * limit == p * limit + limit;
      assert (p - 1) * limit == p * limit - limit;
    }
  }

  /** The walk has ended: its last page says there is no more. */
  predicate Complete<R>(pages: seq<Page<R>>)
    requires |pages| > 0
  {
    !pages[|pages| - 1].meta.hasMore
  }

  /** `cursor` stands before the `k`-th row of `rows`. */
  ghost predicate StandsAt(codec: Codec, cursor: Option<string>, rows: seq<Row>, k: nat) {
    k <= |rows|
    && if k == 0 then cursor == None else cursor == Some(codec.encode(rows[k - 1].id))
  }

  /** The rows a later page is cut from: those the pages before left. */
  lemma PageSource(start: seq<Row>, table: seq<Row>, codec: Codec, f: Filter,
                   cursor: Option<string>, k: nat)
    requires Inverse(codec) && AscendingIds(start) && start <= table && AscendingIds(table)
    requires StandsAt(codec, cursor, Newest(start, FilterConditions(f)), k) && k > 0
    ensures Newest(table, FilterConditions(f) + CursorConditions(codec, cursor))
         == Newest(start, FilterConditions(f))[k..]
  {
    var id := ListedId(start, FilterConditions(f), k - 1);
    CursorCondition(codec, id);
    BelowCursor(start, table, FilterConditions(f), k, id);
  }

  lemma BelowCursor(start: seq<Row>, table: seq<Row>, where_: seq<Condition>, k: nat, id: nat)
    requires AscendingIds(start) && start <= table && AscendingIds(table)
    requires 0 < k <= |Newest(start, where_)| && id == Newest(start, where_)[k - 1].id
    ensures Newest(table, where_ + [IdBelow(id)]) == Newest(start, where_)[k..]
  {
    LaterIdsLarger(start, table, where_, k - 1);
    InsertsInvisible(start, table, where_, id);
    BelowCuts(start, where_, k - 1);
  }

  lemma ListedId(start: seq<Row>, where_: seq<Condition>, k: nat) returns (id: nat)
    requires AscendingIds(start) && k < |Newest(start, where_)|
    ensures id == Newest(start, where_)[k].id > 0
  {
    NewestExact(start, where_);
    var r := Newest(start, where_)[k];
    assert r in Newest(start, where_) && r in start;
    id := r.id;
  }

  lemma LaterIdsLarger(start: seq<Row>, table: seq<Row>, where_: seq<Condition>, k: nat)
    requires AscendingIds(start) && start <= table && AscendingIds(table)
    requires k < |Newest(start, where_)|
    ensures forall i | |start| <= i < |table| :: table[i].id >= Newest(start, where_)[k].id
  {
    NewestExact(start, where_);
    var r := Newest(start, where_)[k];
    assert r in Newest(start, where_) && r in start;
    var p :| 0 <= p < |start| && start[p] == r;
    assert table[p] == r;
  }

  lemma CursorCondition(codec: Codec, id: nat)
    requires Inverse(codec) && id > 0
    ensures CursorConditions(codec, Some(codec.encode(id))) == [IdBelow(id)]
  {
  }

  /**
   * A page after the first `k` rows: the next `limit` of them, whether there are more, and
   * where the next page stands.
   */
  ghost predicate CutsPage(page: Page<Row>, rows: seq<Row>, k: nat, limit: nat, codec: Codec) {
    && k <= |rows| && page.meta.limit == limit
    && (page.meta.hasMore <==> limit < |rows| - k)
    && if limit < |rows| - k then
         page.rows == rows[k..k + limit] && StandsAt(codec, page.meta.nextCursor, rows, k + limit)
       else
         page.rows == rows[k..] && page.meta.nextCursor == None
  }

  lemma PageExact(start: seq<Row>, table: seq<Row>, codec: Codec, f: Filter, limit: nat,
                  cursor: Option<string>, k: nat)
    requires Inverse(codec) && AscendingIds(start) && start <= table && AscendingIds(table)
    requires k == 0 ==> table == start
    requires StandsAt(codec, cursor, Newest(start, FilterConditions(f)), k)
    requires limit > 0
    ensures CutsPage(ListPage(table, codec, f, cursor, limit), Newest(start, FilterConditions(f)),
                     k, limit, codec)
  {
    var where_ := FilterConditions(f);
    var rows := Newest(start, where_);
    if k == 0 {
      assert where_ + [] == where_;
      assert rows[0..] == rows;
    } else {
      PageSource(start, table, codec, f, cursor, k);
    }
    CutPage(rows[k..], limit, (r: Row) => codec.encode(r.id));
    NextSlice(rows, k, limit);
  }

  lemma NextSlice<T>(s: seq<T>, k: nat, n: nat)
    requires k <= |s| && 0 < n
    ensures n < |s| - k ==> s[k..][..n] == s[k..k + n] && s[k..][n - 1] == s[k + n - 1]
  {
  }

  /** Over-fetching by one and cutting: whether there is more, and the cursor of the last row kept. */
  lemma CutPage(source: seq<Row>, limit: nat, cursorOf: Row -> string)
    requires limit > 0
    ensures var fetched := if |source| <= limit + 1 then source else source[..limit + 1];
            var page := BuildPageMeta(fetched, limit, cursorOf);
            && (page.meta.hasMore <==> limit < |source|) && page.meta.limit == limit
            && (if limit < |source| then page.rows == source[..limit]
                                         && page.meta.nextCursor == Some(cursorOf(source[limit - 1]))
                else page.rows == source && page.meta.nextCursor == None)
  {
  }

  /**
   * What a walk over the rows that are left returns: a prefix of them, in no more pages than
   * they fill; and all of them exactly when it is complete.
   */
  ghost predicate WalksRest(pages: seq<Page<Row>>, rest: seq<Row>, limit: nat)
    requires |pages| > 0 && limit > 0
  {
    && AllRows(pages) <= rest
    && |pages| <= PageCount(|rest|, limit)
    && (Complete(pages) <==> |pages| == PageCount(|rest|, limit))
    && (Complete(pages) ==> AllRows(pages) == rest)
  }

  lemma WalkEnds(pages: seq<Page<Row>>, rows: seq<Row>, k: nat, limit: nat, codec: Codec)
    requires |pages| == 1 && limit > 0 && CutsPage(pages[0], rows, k, limit, codec)
    ensures WalksRest(pages, rows[k..], limit)
  {
    NextSlice(rows, k, limit);
    assert pages[1..] == [];
    assert AllRows(pages) == pages[0].rows + [];
  }

  lemma WalkGoesOn(pages: seq<Page<Row>>, rows: seq<Row>, k: nat, limit: nat, codec: Codec)
    requires |pages| > 1 && limit > 0 && CutsPage(pages[0], rows, k, limit, codec)
    requires limit < |rows| - k && WalksRest(pages[1..], rows[k + limit..], limit)
    ensures WalksRest(pages, rows[k..], limit)
  {
    var rest := rows[k..];
    assert rest == rows[k..k + limit] + rows[k + limit..];
    assert pages[1..][|pages| - 2] == pages[|pages| - 1];
  }

  /** Every fetch cuts its page from `rows`, where its cursor stands. */
  ghost predicate FetchCuts(fetch: Fetch, start: seq<Row>, rows: seq<Row>, limit: nat, codec: Codec) {
    forall table, cursor, k
      | start <= table && AscendingIds(table) && (k == 0 ==> table == start)
        && StandsAt(codec, cursor, rows, k)
      :: CutsPage(fetch(table, cursor), rows, k, limit, codec)
  }

  lemma {:induction false} WalkFrom(
      start: seq<Row>, tables: seq<seq<Row>>, pages: seq<Page<Row>>, fetch: Fetch,
      codec: Codec, limit: nat, cursor: Option<string>, rows: seq<Row>, k: nat)
    requires GrowFrom(start, tables) && limit > 0 && FetchCuts(fetch, start, rows, limit, codec)
    requires IsWalk(tables, pages, fetch, cursor)
    requires k == 0 ==> tables[0] == start
    requires StandsAt(codec, cursor, rows, k)
    ensures WalksRest(pages, rows[k..], limit)
    decreases |pages|
  {
    assert tables[0] in tables;
    assert CutsPage(pages[0], rows, k, limit, codec);
    if |pages| > 1 {
      assert forall t | t in tables[1..] :: t in tables;
      WalkFrom(start, tables[1..], pages[1..], fetch, codec, limit, pages[0].meta.nextCursor,
               rows, k + limit);
      WalkGoesOn(pages, rows, k, limit, codec);
    } else {
      WalkEnds(pages, rows, k, limit, codec);
    }
  }

  /**
   * Following the cursors from the top, for any limit of at least 1, whatever larger ids are
   * inserted between pages: the walk never takes more pages than the rows of the first fetch
   * fill, it is complete exactly when it has taken them all, and then it has returned every
   * row that matched at the first fetch, once, newest first.
   */
  lemma WalkReturnsSnapshot(
      tables: seq<seq<Row>>, pages: seq<Page<Row>>, codec: Codec, f: Filter, limit: nat)
    requires Inverse(codec) && limit > 0
    requires IsWalk(tables, pages, ListFetch(codec, f, limit), None)
    requires AscendingIds(tables[0]) && GrowFrom(tables[0], tables)
    ensures WalksRest(pages, Newest(tables[0], FilterConditions(f)), limit)
    ensures Complete(pages) ==>
              && (forall r :: r in AllRows(pages) <==> r in tables[0] && Matches(f, r))
              && (forall i, j | 0 <= i < j < |AllRows(pages)| ::
                    AllRows(pages)[j].id < AllRows(pages)[i].id)
  {
    var start, where_ := tables[0], FilterConditions(f);
    var rows := Newest(start, where_);
    ListFetchCuts(start, codec, f, limit);
    WalkFrom(start, tables, pages, ListFetch(codec, f, limit), codec, limit, None, rows, 0);
    assert rows[0..] == rows;
    NewestExact(start, where_);
    forall r ensures r in rows <==> r in start && Matches(f, r) {
      FilterExact(f, r);
    }
  }

  lemma ListFetchCuts(start: seq<Row>, codec: Codec, f: Filter, limit: nat)
    requires Inverse(codec) && AscendingIds(start) && limit > 0
    ensures FetchCuts(ListFetch(codec, f, limit), start, Newest(start, FilterConditions(f)), limit, codec)
  {
    var rows := Newest(start, FilterConditions(f));
    forall table, cursor, k
      | start <= table && AscendingIds(table) && (k == 0 ==> table == start)
        && StandsAt(codec, cursor, rows, k)
      ensures CutsPage(ListFetch(codec, f, limit)(table, cursor), rows, k, limit, codec)
    {
      PageExact(start, table, codec, f, limit, cursor, k);
    }
  }

  // ---------------------------------------------------------------- the walk over listed pages

  /** A walk as clients see it; the users may be others on each page. */
  predicate IsListedWalk(
      tables: seq<seq<Row>>, users: seq<map<int, User>>, pages: seq<Page<Listed>>, codec: Codec,
      f: Filter, limit: nat, cursor: Option<string>)
    decreases |pages|
  {
    && |tables| == |users| == |pages| > 0
    && pages[0] == DomainPage(users[0], ListPage(tables[0], codec, f, cursor, limit))
    && (|pages| > 1 ==>
          && pages[0].meta.hasMore
          && IsListedWalk(tables[1..], users[1..], pages[1..], codec, f, limit,
                          pages[0].meta.nextCursor))
  }

  ghost predicate ShownBySome(l: Listed, r: Row, users: seq<map<int, User>>) {
    exists u | u in users :: ShowsRow(l, r, u)
  }

  /** The listed rows are these rows, one for one, under one or another of the users. */
  ghost predicate ShowsAll(ls: seq<Listed>, rows: seq<Row>, users: seq<map<int, User>>) {
    && |ls| == |rows|
    && forall i | 0 <= i < |ls| :: ShownBySome(ls[i], rows[i], users)
  }

  lemma ShowsMore(
      page: Page<Listed>, cut: Page<Row>, ls: seq<Listed>, rows: seq<Row>,
      users: seq<map<int, User>>)
    requires users != [] && Shows(page, cut, users[0]) && ShowsAll(ls, rows, users[1..])
    ensures ShowsAll(page.rows + ls, cut.rows + rows, users)
  {
    var n := |page.rows|;
    forall i | 0 <= i < n + |ls|
      ensures ShownBySome((page.rows + ls)[i], (cut.rows + rows)[i], users)
    {
      if i < n {
        assert users[0] in users && ShowsRow(page.rows[i], cut.rows[i], users[0]);
      } else {
        assert ShownBySome(ls[i - n], rows[i - n], users[1..]);
        var u :| u in users[1..] && ShowsRow(ls[i - n], rows[i - n], u);
        assert u in users;
      }
    }
  }

  lemma WalkPrepended(
      tables: seq<seq<Row>>, first: Page<Row>, rest: seq<Page<Row>>, fetch: Fetch,
      cursor: Option<string>)
    requires |tables| == 1 + |rest| && |rest| > 0
    requires first == fetch(tables[0], cursor) && first.meta.hasMore
    requires IsWalk(tables[1..], rest, fetch, first.meta.nextCursor)
    ensures IsWalk(tables, [first] + rest, fetch, cursor)
    ensures Complete([first] + rest) <==> Complete(rest)
    ensures AllRows([first] + rest) == first.rows + AllRows(rest)
  {
    assert ([first] + rest)[1..] == rest;
  }

  /** The cut pages behind a walk. */
  lemma {:induction false} CutPages(
      tables: seq<seq<Row>>, users: seq<map<int, User>>, pages: seq<Page<Listed>>, codec: Codec,
      f: Filter, limit: nat, cursor: Option<string>)
    returns (cuts: seq<Page<Row>>)
    requires IsListedWalk(tables, users, pages, codec, f, limit, cursor)
    ensures IsWalk(tables, cuts, ListFetch(codec, f, limit), cursor)
    ensures |cuts| == |pages| && (Complete(cuts) <==> Complete(pages))
    ensures ShowsAll(AllRows(pages), AllRows(cuts), users)
    decreases |pages|
  {
    var cut := ListPage(tables[0], codec, f, cursor, limit);
    DomainPageExact(users[0], cut);
    if |pages| == 1 {
      cuts := [cut];
      assert cuts[1..] == [] && pages[1..] == [];
      ShowsMore(pages[0], cut, [], [], users);
    } else {
      var rest := CutPages(tables[1..], users[1..], pages[1..], codec, f, limit,
                           cut.meta.nextCursor);
      cuts := [cut] + rest;
      WalkPrepended(tables, cut, rest, ListFetch(codec, f, limit), cursor);
      assert pages[|pages| - 1] == pages[1..][|pages| - 2];
      ShowsMore(pages[0], cut, AllRows(pages[1..]), AllRows(rest), users);
    }
  }

  /**
   * So the pages that `List` gives, followed from the top, show exactly the rows that matched at
   * the first fetch, each once and newest first, once the walk is complete; and it is complete
   * exactly when it has taken as many pages as those rows fill.
   */
  lemma ListedWalkShowsSnapshot(
      tables: seq<seq<Row>>, users: seq<map<int, User>>, pages: seq<Page<Listed>>, codec: Codec,
      f: Filter, limit: nat)
    returns (rows: seq<Row>)
    requires Inverse(codec) && limit > 0
    requires IsListedWalk(tables, users, pages, codec, f, limit, None)
    requires AscendingIds(tables[0]) && GrowFrom(tables[0], tables)
    ensures forall r :: r in rows <==> r in tables[0] && Matches(f, r)
    ensures forall i, j | 0 <= i < j < |rows| :: rows[j].id < rows[i].id
    ensures |pages| <= PageCount(|rows|, limit)
    ensures Complete(pages) <==> |pages| == PageCount(|rows|, limit)
    ensures Complete(pages) ==> ShowsAll(AllRows(pages), rows, users)
  {
    rows := Newest(tables[0], FilterConditions(f));
    var cuts := CutPages(tables, users, pages, codec, f, limit, None);
    WalkReturnsSnapshot(tables, cuts, codec, f, limit);
    NewestExact(tables[0], FilterConditions(f));
    forall r ensures r in rows <==> r in tables[0] && Matches(f, r) {
      FilterExact(f, r);
    }
  }

  /** With a limit of 0 a page says there is more but gives no cursor, so no walk completes. */
  lemma ZeroLimitNeverCompletes(table: seq<Row>, codec: Codec, f: Filter, cursor: Option<string>)
    requires Newest(table, FilterConditions(f) + CursorConditions(codec, cursor)) != []
    ensures var page := ListPage(table, codec, f, cursor, 0);
            page.rows == [] && page.meta.hasMore && page.meta.nextCursor == None
  {
  }
}
