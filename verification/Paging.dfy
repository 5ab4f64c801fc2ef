/**
 Keyset pagination over (created_at, id) DESC, as the applicant, audit-log and
 survey-response listings do it, against the one descending listing of a table.
 */
module Paging {
  import opened Basics

  /** The sort key of a row; it never changes. */
  datatype Key = Key(createdAt: Time, id: Id)

  /** (created_at, id) < (created_at, id) as SQL compares row values. */
  predicate Less(a: Key, b: Key) {
    a.createdAt < b.createdAt || (a.createdAt == b.createdAt && a.id < b.id)
  }

  /** The filterable columns of the three listed tables. */
  datatype Attrs =
    | ApplicantAttrs(playtest: Id, status: int, dmFailed: bool)
    | AuditAttrs(playtest: Id, actor: Option<Id>, action: int)
    | ResponseAttrs(playtest: Id, survey: Id)

  datatype ActorFilter = AnyActor | SystemOnly | Actor(user: Id)

  datatype Filter =
    | Applicants(playtest: Id, status: Option<int>, dmFailedOnly: bool)
    | AuditLog(playtest: Id, actor: ActorFilter, action: Option<int>)
    | Responses(playtest: Id, survey: Option<Id>)

  predicate Matches(f: Filter, r: Attrs) {
    match f
    case Applicants(p, status, dmFailedOnly) =>
      && r.ApplicantAttrs? && r.playtest == p
      && (status.Some? ==> r.status == status.value)
      && (dmFailedOnly ==> r.dmFailed)
    case AuditLog(p, actor, action) =>
      && r.AuditAttrs? && r.playtest == p
      && (match actor case AnyActor => true case SystemOnly => r.actor.None? case Actor(u) => r.actor == Some(u))
      && (action.Some? ==> r.action == action.value)
    case Responses(p, survey) =>
      && r.ResponseAttrs? && r.playtest == p
      && (survey.Some? ==> r.survey == survey.value)
  }

  /** The WHERE clauses, column by column: a row of another table never matches. */
  lemma MatchesMeaning(f: Filter, r: Attrs)
    ensures f.Applicants? ==>
              (Matches(f, r) <==>
                r.ApplicantAttrs? && r.playtest == f.playtest && (f.status == None || f.status == Some(r.status))
                && (f.dmFailedOnly ==> r.dmFailed))
    ensures f.AuditLog? ==>
              (Matches(f, r) <==>
                r.AuditAttrs? && r.playtest == f.playtest && (f.action == None || f.action == Some(r.action))
                && (f.actor == SystemOnly ==> r.actor == None)
                && (f.actor.Actor? ==> r.actor == Some(f.actor.user)))
    ensures f.Responses? ==>
              (Matches(f, r) <==>
                r.ResponseAttrs? && r.playtest == f.playtest && (f.survey == None || f.survey == Some(r.survey)))
  {
  }

  type Table = map<Key, Attrs>

  const DEFAULT_LIMIT: nat := 50
  const MAX_LIMIT: nat := 200

  function PageSize(requested: int): (n: nat)
    ensures 1 <= n <= 200
    ensures 1 <= requested <= 200 ==> n == requested
    ensures requested <= 0 ==> n == 50
    ensures requested > 200 ==> n == 200
  {
    if requested <= 0 then DEFAULT_LIMIT else if requested > MAX_LIMIT then MAX_LIMIT else requested
  }

  // ------------------------------------------------------------------ the token

  const NIL: Id := 0

  /** A page token: empty, an encoded cursor, or something that does not decode. */
  datatype Token = NoToken | Encoded(cursor: Key) | Malformed

  datatype PageError = InvalidToken

  function Encode(c: Key): Token {
    Encoded(c)
  }

  function Decode(t: Token): Result<Option<Key>, PageError> {
    match t
    case NoToken => Ok(None)
    case Malformed => Err(InvalidToken)
    case Encoded(c) => if c.id == NIL then Err(InvalidToken) else Ok(Some(c))
  }

  // ------------------------------------------------------------------ the listing

  ghost predicate Descending(s: seq<Key>) {
    forall i, j | 0 <= i < j < |s| :: Less(s[j], s[i])
  }

  ghost predicate IsMax(s: set<Key>, m: Key) {
    m in s && forall k | k in s :: k == m || Less(k, m)
  }

  lemma {:induction false} MaxExists(s: set<Key>)
    requires s != {}
    ensures exists m :: IsMax(s, m)
  {
    var x := AnyOf(s);
    var rest := s - {x};
    if rest == {} {
      assert forall k | k in s :: k == x || k in rest;
      assert IsMax(s, x);
    } else {
      MaxExists(rest);
      var m :| IsMax(rest, m);
      assert forall k | k in s :: k == x || k in rest;
      assert IsMax(s, if Less(m, x) then x else m);
    }
  }

  ghost function Newest(s: set<Key>): (m: Key)
    requires s != {}
    ensures IsMax(s, m)
  {
    MaxExists(s);
    var m :| IsMax(s, m);
    m
  }

  /** ORDER BY created_at DESC, id DESC. */
  ghost function Listing(s: set<Key>): seq<Key> {
    if s == {} then [] else [Newest(s)] + Listing(s - {Newest(s)})
  }

  lemma {:induction false} ListingSorted(s: set<Key>)
    ensures Descending(Listing(s)) && |Listing(s)| == |s|
    ensures forall k :: k in Listing(s) <==> k in s
  {
    if s != {} {
      ListingSorted(s - {Newest(s)});
    }
  }

  /** There is only one descending listing of a set. */
  lemma {:induction false} ListingUnique(s: set<Key>, l: seq<Key>)
    requires Descending(l) && forall k :: k in l <==> k in s
    ensures l == Listing(s)
    decreases |l|
  {
    if l == [] {
      assert s == {};
    } else {
      assert l[0] in s;
      assert IsMax(s, l[0]);
      assert Newest(s) == l[0];
      forall k ensures k in l[1..] <==> k in s - {l[0]} {
        assert k in l <==> k == l[0] || k in l[1..];
      }
      ListingUnique(s - {l[0]}, l[1..]);
    }
  }

  /** The rows one page fetch selects: those that match and come after the cursor. */
  ghost function Visible(t: Table, f: Filter, cursor: Option<Key>): set<Key> {
    set k | k in t && Matches(f, t[k]) && (cursor.Some? ==> Less(k, cursor.value))
  }

  /** A page and the cursor of the next one. */
  ghost function PageOf(t: Table, f: Filter, size: nat, cursor: Option<Key>): (seq<Key>, Option<Key>)
    requires size >= 1
  {
    var all := Listing(Visible(t, f, cursor));
    if |all| > size then (all[..size], Some(all[size - 1])) else (all, None)
  }

  datatype Page = Page(rows: seq<Key>, next: Token)

  /** The query itself: the newest matching rows, at most count of them. */
  method Select(t: Table, f: Filter, cursor: Option<Key>, count: nat) returns (rows: seq<Key>)
    ensures var all := Listing(Visible(t, f, cursor)); rows == if |all| > count then all[..count] else all
  {
    var left := set k | k in t && Matches(f, t[k]) && (cursor.Some? ==> Less(k, cursor.value));
    ghost var all := Listing(left);
    rows := [];
    while left != {} && |rows| < count
      invariant all == rows + Listing(left)
      invariant |rows| <= count
      decreases |left|
    {
      var m := PickNewest(left);
      ListingHead(left, m);
      Concat(rows, m, Listing(left - {m}));
      rows, left := rows + [m], left - {m};
    }
    if left != {} {
      assert |Listing(left)| > 0;
      assert all[..|rows|] == rows;
    } else {
      assert all == rows;
    }
  }

  lemma ListingHead(s: set<Key>, m: Key)
    requires s != {} && IsMax(s, m)
    ensures Listing(s) == [m] + Listing(s - {m})
  {
    assert Newest(s) == m;
  }

  lemma Concat(rows: seq<Key>, m: Key, rest: seq<Key>)
    ensures rows + ([m] + rest) == rows + [m] + rest
  {
  }

  method PickNewest(s: set<Key>) returns (m: Key)
    requires s != {}
    ensures IsMax(s, m)
  {
    m := TakeAny(s);
    var rest := s - {m};
    while rest != {}
      invariant rest <= s && m in s
      invariant forall k | k in s && k !in rest :: k == m || Less(k, m)
      decreases |rest|
    {
      var k := TakeAny(rest);
      rest := rest - {k};
      if Less(m, k) {
        m := k;
      }
    }
  }

  /** Newest first, in the columns: created later, or at the same time with the larger id. */
  predicate NewestFirst(rows: seq<Key>) {
    forall i, j | 0 <= i < j < |rows| ::
      rows[j].createdAt < rows[i].createdAt || (rows[j].createdAt == rows[i].createdAt && rows[j].id < rows[i].id)
  }

  /**
   A page in the columns: its rows are in the table, match, lie beyond the cursor and come
   newest first; every such row it leaves out is older than its last row, and there is a next
   cursor, that row, exactly when some are left out.
   */
  lemma PageInColumns(t: Table, f: Filter, size: nat, cursor: Option<Key>)
    requires size >= 1
    ensures var (rows, next) := PageOf(t, f, size, cursor);
            && NewestFirst(rows) && |rows| <= size
            && (forall k | k in rows :: k in t && Matches(f, t[k]) && (cursor.Some? ==> Beyond(k, cursor.value)))
            && (forall k | k in t && Matches(f, t[k]) && (cursor.Some? ==> Beyond(k, cursor.value)) && k !in rows ::
                  next.Some? && Beyond(k, next.value))
            && (next.Some? ==> rows != [] && next.value == rows[|rows| - 1])
            && (next.Some? ==> exists k :: k in t && Matches(f, t[k]) && Beyond(k, next.value))
  {
    PageSorted(t, f, size, cursor);
    var v := Visible(t, f, cursor);
    var all := Listing(v);
    ListingSorted(v);
    if |all| > size {
      assert all[size] in all && Less(all[size], all[size - 1]);
      assert all[size] in v && Beyond(all[size], all[size - 1]);
    }
    assert forall k :: k in v <==> k in t && Matches(f, t[k]) && (cursor.Some? ==> Beyond(k, cursor.value));
  }

  /** k is older than c: created earlier, or at the same time with the smaller id. */
  predicate Beyond(k: Key, c: Key) {
    k.createdAt < c.createdAt || (k.createdAt == c.createdAt && k.id < c.id)
  }

  /** ListPaged, List and ListResponses: one row too many is fetched to see whether a page follows. */
  method ListPaged(t: Table, f: Filter, requested: int, token: Token) returns (r: Result<Page, PageError>)
    ensures r.Err? <==> token.Malformed? || (token.Encoded? && token.cursor.id == 0)
    ensures r.Ok? ==>
              var p := PageOf(t, f, PageSize(requested), Decode(token).value);
              r.value == Page(p.0, if p.1.Some? then Encode(p.1.value) else NoToken)
    ensures r.Ok? ==> NewestFirst(r.value.rows) && !r.value.next.Malformed?
    ensures r.Ok? && 1 <= requested <= 200 ==> |r.value.rows| <= requested
    ensures r.Ok? && r.value.next.Encoded? ==> |r.value.rows| == PageSize(requested)
    ensures r.Ok? ==>
              forall k | k in r.value.rows ::
                k in t && Matches(f, t[k]) && (token.Encoded? ==> Beyond(k, token.cursor))
    ensures r.Ok? ==>
              forall k | k in t && Matches(f, t[k]) && k !in r.value.rows ::
                (token.Encoded? ==> Beyond(k, token.cursor)) ==>
                  r.value.next.Encoded? && Beyond(k, r.value.next.cursor)
  {
    var limit := PageSize(requested);
    var cursor;
    match Decode(token) {
      case Err(e) => return Err(e);
      case Ok(c) => cursor := c;
    }
    var rows := Select(t, f, cursor, limit + 1);
    var out: seq<Key> := [];
    for i := 0 to |rows|
      invariant out == rows[..i]
    {
      out := out + [rows[i]];
    }
    assert out == rows;
    PageInColumns(t, f, limit, cursor);
    if |out| > limit {
      return Ok(Page(out[..limit], Encode(out[limit - 1])));
    }
    return Ok(Page(out, NoToken));
  }

  /** The next page can be fetched exactly when the last row's id is not the nil id. */
  lemma TokenRoundTrip(c: Key)
    ensures Decode(Encode(c)) == Ok(Some(c)) <==> c.id != 0
  {
  }

  // ------------------------------------------------------------------ walks

  /**
   Following the tokens while the table changes: page i is fetched from snapshot i. The
   result says whether the last page was reached.
   */
  ghost function Walk(snaps: seq<Table>, f: Filter, size: nat, cursor: Option<Key>): (seq<Key>, bool)
    requires size >= 1
    decreases |snaps|
  {
    if snaps == [] then ([], false) else
      var p := PageOf(snaps[0], f, size, cursor);
      if p.1.None? then (p.0, true) else
        var w := Walk(snaps[1..], f, size, p.1);
        (p.0 + w.0, w.1)
  }

  lemma PageSorted(t: Table, f: Filter, size: nat, cursor: Option<Key>)
    requires size >= 1
    ensures var p := PageOf(t, f, size, cursor);
            && Descending(p.0)
            && (forall k | k in p.0 :: k in Visible(t, f, cursor))
            && (p.1.Some? ==> |p.0| == size && p.1.value == p.0[size - 1])
            && (forall k | k in Visible(t, f, cursor) && k !in p.0 :: p.1.Some? && Less(k, p.1.value))
  {
    var v := Visible(t, f, cursor);
    var all := Listing(v);
    ListingSorted(v);
    var p := PageOf(t, f, size, cursor);
    assert forall i | 0 <= i < |p.0| :: p.0[i] == all[i];
    forall k | k in v && k !in p.0 ensures p.1.Some? && Less(k, p.1.value) {
      assert k in all;
    }
  }

  lemma DescendingConcat(a: seq<Key>, b: seq<Key>, c: Key)
    requires Descending(a) && Descending(b) && a != [] && a[|a| - 1] == c
    requires forall k | k in b :: Less(k, c)
    ensures Descending(a + b)
    ensures forall k | k in b :: Less(k, a[0])
  {
    assert forall i | 0 <= i < |b| :: b[i] in b;
  }

  /**
   However the table changes between fetches, a walk returns its rows in strictly
   descending order, so no row twice, and only rows that matched when they were fetched.
   */
  lemma {:induction false} WalkNeverRepeats(snaps: seq<Table>, f: Filter, size: nat, cursor: Option<Key>)
    requires size >= 1
    ensures Descending(Walk(snaps, f, size, cursor).0)
    ensures forall k | k in Walk(snaps, f, size, cursor).0 ::
              (cursor.Some? ==> Less(k, cursor.value)) && exists s :: s in snaps && k in s && Matches(f, s[k])
    decreases |snaps|
  {
    if snaps != [] {
      PageSorted(snaps[0], f, size, cursor);
      var p := PageOf(snaps[0], f, size, cursor);
      assert snaps[0] in snaps;
      if p.1.Some? {
        WalkNeverRepeats(snaps[1..], f, size, p.1);
        DescendingConcat(p.0, Walk(snaps[1..], f, size, p.1).0, p.1.value);
      }
    }
  }

  /** A row that is there, and matches, at every fetch of a completed walk is returned. */
  lemma {:induction false} WalkMissesNothing(snaps: seq<Table>, f: Filter, size: nat, cursor: Option<Key>, k: Key)
    requires size >= 1 && Walk(snaps, f, size, cursor).1
    requires forall s | s in snaps :: k in s && Matches(f, s[k])
    requires cursor.Some? ==> Less(k, cursor.value)
    ensures k in Walk(snaps, f, size, cursor).0
    decreases |snaps|
  {
    PageSorted(snaps[0], f, size, cursor);
    var p := PageOf(snaps[0], f, size, cursor);
    assert snaps[0] in snaps;
    assert k in Visible(snaps[0], f, cursor);
    if k !in p.0 {
      WalkMissesNothing(snaps[1..], f, size, p.1, k);
    }
  }

  function Same(t: Table, n: nat): (s: seq<Table>)
    ensures |s| == n && forall x | x in s :: x == t
  {
    seq(n, _ => t)
  }

  /** n full pages, as a walk adds them up. */
  function Pages(n: nat, size: nat): nat {
    if n == 0 then 0 else Pages(n - 1, size) + size
  }

  lemma {:induction false} PagesIsProduct(n: nat, size: nat)
    ensures Pages(n, size) == n * size
  {
    if n > 0 {
      PagesIsProduct(n - 1, size);
      assert n * size == (n - 1) * size + size;
    }
  }

  /** A page that is followed by another is the head of the listing, and its cursor sees the rest. */
  lemma PageAndRest(t: Table, f: Filter, size: nat, cursor: Option<Key>)
    requires size >= 1 && PageOf(t, f, size, cursor).1.Some?
    ensures var p := PageOf(t, f, size, cursor);
            var v, rest := Visible(t, f, cursor), Visible(t, f, p.1);
            Listing(v) == p.0 + Listing(rest) && |rest| + size == |v|
  {
    var p := PageOf(t, f, size, cursor);
    var all := Listing(Visible(t, f, cursor));
    RestIsTail(t, f, size, cursor);
    assert all == all[..size] + all[size..];
    ListingLength(Visible(t, f, cursor));
    ListingLength(Visible(t, f, p.1));
  }

  lemma ListingLength(s: set<Key>)
    ensures |Listing(s)| == |s|
  {
    ListingSorted(s);
  }

  /** On a fixed table the walk ends within the expected number of pages and equals the listing. */
  lemma {:induction false} WalkLists(t: Table, f: Filter, size: nat, cursor: Option<Key>, n: nat)
    requires size >= 1 && n >= 1 && |Visible(t, f, cursor)| <= Pages(n, size)
    ensures Walk(Same(t, n), f, size, cursor) == (Listing(Visible(t, f, cursor)), true)
    decreases n
  {
    var snaps, p := Same(t, n), PageOf(t, f, size, cursor);
    assert snaps[0] in snaps;
    if p.1.Some? {
      PageAndRest(t, f, size, cursor);
      ListingLength(Visible(t, f, cursor));
      assert Pages(n, size) == Pages(n - 1, size) + size;
      assert snaps[1..] == Same(t, n - 1);
      WalkLists(t, f, size, p.1, n - 1);
    }
  }

  lemma WalkIsListing(t: Table, f: Filter, size: nat, cursor: Option<Key>, n: nat)
    requires size >= 1 && n >= 1 && |Visible(t, f, cursor)| <= n * size
    ensures Walk(Same(t, n), f, size, cursor) == (Listing(Visible(t, f, cursor)), true)
  {
    PagesIsProduct(n, size);
    WalkLists(t, f, size, cursor, n);
  }

  /** In a descending sequence the rows after position n are those below the n-th. */
  lemma TailIsBelow(all: seq<Key>, n: nat, k: Key)
    requires Descending(all) && 1 <= n <= |all|
    ensures k in all[n..] <==> k in all && Less(k, all[n - 1])
  {
    if k in all[n..] {
      var i :| n <= i < |all| && all[i] == k;
      assert Less(all[i], all[n - 1]);
    }
    if k in all && Less(k, all[n - 1]) {
      var i :| 0 <= i < |all| && all[i] == k;
      assert i < n - 1 ==> Less(all[n - 1], all[i]);
      assert n <= i;
      assert all[n..][i - n] == k;
    }
  }

  /** What the next cursor still sees is the rest of the listing. */
  lemma RestIsTail(t: Table, f: Filter, size: nat, cursor: Option<Key>)
    requires size >= 1 && PageOf(t, f, size, cursor).1.Some?
    ensures Listing(Visible(t, f, PageOf(t, f, size, cursor).1)) == Listing(Visible(t, f, cursor))[size..]
  {
    var v := Visible(t, f, cursor);
    var all := Listing(v);
    ListingSorted(v);
    var c := all[size - 1];
    assert c in v;
    var rest := Visible(t, f, Some(c));
    forall k ensures k in all[size..] <==> k in rest {
      TailIsBelow(all, size, k);
      assert k in all <==> k in v;
    }
    TailDescending(all, size);
    ListingUnique(rest, all[size..]);
  }

  lemma TailDescending(all: seq<Key>, n: nat)
    requires Descending(all) && n <= |all|
    ensures Descending(all[n..])
  {
  }

  // ------------------------------------------------------------------ following NextPageToken

  /** The walk of a client: each token is decoded before its page is fetched, and a bad one ends the walk. */
  ghost function TokenWalk(snaps: seq<Table>, f: Filter, requested: int, token: Token): (seq<Key>, bool)
    decreases |snaps|
  {
    if snaps == [] || Decode(token).Err? then ([], false) else
      var p := PageOf(snaps[0], f, PageSize(requested), Decode(token).value);
      if p.1.None? then (p.0, true) else
        var w := TokenWalk(snaps[1..], f, requested, Encode(p.1.value));
        (p.0 + w.0, w.1)
  }

  /** No page of the walk that is followed by another ends with the nil id. */
  ghost predicate NoNilBoundary(snaps: seq<Table>, f: Filter, size: nat, cursor: Option<Key>)
    requires size >= 1
    decreases |snaps|
  {
    snaps == [] ||
    var p := PageOf(snaps[0], f, size, cursor);
    p.1.None? || (p.1.value.id != NIL && NoNilBoundary(snaps[1..], f, size, p.1))
  }

  /**
   A client's walk is the walk by cursors, cut short at the first page boundary with the nil
   id: it completes exactly when that one does and meets no such boundary.
   */
  lemma {:induction false} TokenWalkIsWalk(snaps: seq<Table>, f: Filter, requested: int, token: Token)
    requires Decode(token).Ok?
    ensures var tw := TokenWalk(snaps, f, requested, token);
            var w := Walk(snaps, f, PageSize(requested), Decode(token).value);
            var whole := NoNilBoundary(snaps, f, PageSize(requested), Decode(token).value);
            tw.0 <= w.0 && (whole ==> tw == w) && (tw.1 <==> w.1 && whole)
    decreases |snaps|
  {
    if snaps != [] {
      var p := PageOf(snaps[0], f, PageSize(requested), Decode(token).value);
      if p.1.Some? {
        TokenRoundTrip(p.1.value);
        if p.1.value.id != NIL {
          TokenWalkIsWalk(snaps[1..], f, requested, Encode(p.1.value));
        }
      }
    }
  }

  /**
   From the empty token, however the table changes between fetches: no row comes twice, and if
   the walk completes, every row present and matching throughout has come.
   */
  lemma ClientSeesEachOnce(snaps: seq<Table>, f: Filter, requested: int, k: Key)
    ensures Descending(TokenWalk(snaps, f, requested, NoToken).0)
    ensures TokenWalk(snaps, f, requested, NoToken).1 && (forall s | s in snaps :: k in s && Matches(f, s[k])) ==>
              k in TokenWalk(snaps, f, requested, NoToken).0
  {
    var tw := TokenWalk(snaps, f, requested, NoToken);
    TokenWalkIsWalk(snaps, f, requested, NoToken);
    WalkNeverRepeats(snaps, f, PageSize(requested), None);
    if tw.1 && forall s | s in snaps :: k in s && Matches(f, s[k]) {
      WalkMissesNothing(snaps, f, PageSize(requested), None, k);
    }
  }

  /** On a fixed table without the nil id a client gets exactly the listing. */
  lemma ClientGetsListing(t: Table, f: Filter, requested: int, n: nat)
    requires n >= 1 && |Visible(t, f, None)| <= n * PageSize(requested)
    requires forall k | k in t :: k.id != NIL
    ensures TokenWalk(Same(t, n), f, requested, NoToken) == (Listing(Visible(t, f, None)), true)
  {
    TokenWalkIsWalk(Same(t, n), f, requested, NoToken);
    WalkIsListing(t, f, PageSize(requested), None, n);
    NoNilRows(t, f, PageSize(requested), None, n);
  }

  lemma {:induction false} NoNilRows(t: Table, f: Filter, size: nat, cursor: Option<Key>, n: nat)
    requires size >= 1 && forall k | k in t :: k.id != NIL
    ensures NoNilBoundary(Same(t, n), f, size, cursor)
    decreases n
  {
    if n > 0 {
      var p := PageOf(t, f, size, cursor);
      PageSorted(t, f, size, cursor);
      assert Same(t, n)[0] in Same(t, n);
      assert Same(t, n)[1..] == Same(t, n - 1);
      if p.1.Some? {
        assert p.1.value in p.0;
        NoNilRows(t, f, size, p.1, n - 1);
      }
    }
  }
}
