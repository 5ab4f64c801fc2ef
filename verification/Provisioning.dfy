/**
 Provisioning of an AGS_CAMPAIGN playtest: remote campaign, item, link and code batches,
 then one database transaction, with compensating deletes when a later step fails. Every
 remote call may succeed, be refused, or take effect while its answer is lost, and other
 callers may change the platform and the database between any two calls.
 */
module Provisioning {
  import opened Basics

  datatype Outcome = Done | Refused | AnswerLost

  /** How a CreateCodes call goes: the codes it makes may be fewer, or more, than asked. */
  datatype Batch = Batch(outcome: Outcome, made: nat)

  /** The n-th code ever generated for a campaign. */
  datatype CodeValue = CodeValue(campaign: Id, index: nat)

  datatype Remote = Remote(items: map<Id, Id>, campaigns: set<Id>, linked: map<Id, Id>, codes: map<Id, seq<CodeValue>>)

  datatype Row = Row(slug: string, item: Id, campaign: Id)

  datatype Local = Local(playtests: map<Id, Row>, codes: map<Id, seq<CodeValue>>)

  datatype Failure = InvalidArgument | Upstream | AlreadyExists | Internal

  const MIN_QTY := 1
  const MAX_QTY := 50_000
  const DEFAULT_BATCH := 1000

  /** Where the database transaction can fail other than on a unique index. */
  datatype TxStep = AtPlaytest | AtCodes | AtCommit

  /** How other callers leave the platform, and how many ids they took. */
  datatype Elsewhere = Idle | Busy(left: Remote, taken: nat)

  /** How every call of one provisioning would go, and what others do before each of them. */
  datatype Plan = Plan(
    bootstrap: Outcome,
    campaign: Outcome,
    item: Outcome,
    link: Outcome,
    batch: nat -> Batch,
    txFails: Option<TxStep>,
    deleteCampaign: Outcome,
    deleteItem: Outcome,
    before: Call -> Elsewhere)

  /** The remote calls after the bootstrap. */
  datatype Call = ForCampaign | ForItem | ForLink | ForBatch(i: nat) | ForDeleteCampaign | ForDeleteItem

  function NewCodes(campaign: Id, existing: nat, made: nat): (s: seq<CodeValue>)
    ensures |s| == made
  {
    seq(made, i requires 0 <= i < made => CodeValue(campaign, existing + i))
  }

  /** The codes the first calls of a batch sequence make. */
  function Total(batch: nat -> Batch, calls: nat): nat {
    if calls == 0 then 0 else Total(batch, calls - 1) + batch(calls - 1).made
  }

  /** The quantity that call i of the loop asks for. */
  function Wanted(batch: nat -> Batch, quantity: int, size: int, i: nat): int {
    Min(quantity - Total(batch, i), size)
  }

  /** n times size, as the loop adds it up. */
  function Times(n: nat, size: int): int {
    if n == 0 then 0 else Times(n - 1, size) + size
  }

  lemma {:induction false} TimesIsProduct(n: nat, size: int)
    ensures Times(n, size) == n * size
  {
    if n > 0 {
      TimesIsProduct(n - 1, size);
      assert n * size == (n - 1) * size + size;
    }
  }

  function PoolOf(r: Remote, campaign: Id): seq<CodeValue> {
    if campaign in r.codes then r.codes[campaign] else []
  }

  /** Where the batch loop ends: whether on a failed call, with how many codes, after how many calls. */
  datatype LoopEnd = LoopEnd(failed: bool, total: nat, calls: nat)

  /** The batch loop from call i on, with remaining codes to go. */
  function Loop(batch: nat -> Batch, size: int, remaining: int, i: nat): LoopEnd
    requires size >= 1
    decreases if remaining > 0 then remaining else 0
  {
    if remaining <= 0 then LoopEnd(false, 0, i)
    else if !batch(i).outcome.Done? then LoopEnd(true, 0, i + 1)
    else if batch(i).made < Min(remaining, size) then LoopEnd(false, batch(i).made, i + 1)
    else
      var rest := Loop(batch, size, remaining - batch(i).made, i + 1);
      rest.(total := batch(i).made + rest.total)
  }

  /** After some calls that gave n codes, the rest of the loop completes the given end. */
  predicate Continues(batch: nat -> Batch, size: int, end: LoopEnd, remaining: int, calls: nat, n: nat)
    requires size >= 1
  {
    var rest := Loop(batch, size, remaining, calls);
    end == rest.(total := n + rest.total)
  }

  /** Batch i holds fewer codes than its call asked for. */
  predicate Short(batch: nat -> Batch, quantity: int, size: int, i: nat) {
    batch(i).made < Wanted(batch, quantity, size, i)
  }

  /** Call i asks for what is still missing, or for a full batch when that is less. */
  lemma WantedMeaning(batch: nat -> Batch, quantity: int, size: int, i: nat)
    ensures Total(batch, 0) == 0 && Total(batch, i + 1) == Total(batch, i) + batch(i).made
    ensures var missing := quantity - Total(batch, i);
            Wanted(batch, quantity, size, i) == if missing <= size then missing else size
    ensures Short(batch, quantity, size, i) <==>
              batch(i).made < quantity - Total(batch, i) && batch(i).made < size
  {
  }

  /** No batch holds more codes than its call asked for. */
  ghost predicate WithinWanted(batch: nat -> Batch, quantity: int, size: int, calls: nat) {
    forall i | 0 <= i < calls :: batch(i).made <= Wanted(batch, quantity, size, i)
  }

  /** The calls from the first number up to the last all worked and got full batches. */
  ghost predicate FullBetween(batch: nat -> Batch, quantity: int, size: int, first: nat, last: nat) {
    forall k {:trigger Short(batch, quantity, size, k)} | first <= k < last ::
      batch(k).outcome.Done? && !Short(batch, quantity, size, k)
  }

  /** The loop goes on from call i: the batch was full and codes are still to be asked for, or none are. */
  predicate GoesOn(batch: nat -> Batch, size: int, remaining: int, i: nat) {
    remaining > 0 && batch(i).outcome.Done? && batch(i).made >= Min(remaining, size)
  }

  lemma NextTotal(batch: nat -> Batch, i: nat)
    ensures Total(batch, i + 1) == Total(batch, i) + batch(i).made
  {
  }

  /** The loop makes a call exactly when codes remain; all its calls but the last work, the last unless it fails. */
  lemma {:induction false} LoopOutcomes(batch: nat -> Batch, size: int, remaining: int, i: nat)
    requires size >= 1
    ensures var r := Loop(batch, size, remaining, i);
            && i <= r.calls
            && (remaining > 0 <==> r.calls > i)
            && (r.calls > i ==> (r.failed <==> !batch(r.calls - 1).outcome.Done?))
            && (r.failed ==> r.calls > i)
    decreases if remaining > 0 then remaining else 0
  {
    if GoesOn(batch, size, remaining, i) {
      LoopOutcomes(batch, size, remaining - batch(i).made, i + 1);
    }
  }

  lemma {:induction false} LoopTotal(batch: nat -> Batch, quantity: int, size: int, remaining: int, i: nat)
    requires size >= 1 && remaining == quantity - Total(batch, i)
    requires !Loop(batch, size, remaining, i).failed
    ensures var r := Loop(batch, size, remaining, i); Total(batch, i) + r.total == Total(batch, r.calls)
    decreases if remaining > 0 then remaining else 0
  {
    NextTotal(batch, i);
    if GoesOn(batch, size, remaining, i) {
      LoopTotal(batch, quantity, size, remaining - batch(i).made, i + 1);
    }
  }

  lemma FullFrom(batch: nat -> Batch, quantity: int, size: int, first: nat, last: nat)
    requires batch(first).outcome.Done? && !Short(batch, quantity, size, first)
    requires FullBetween(batch, quantity, size, first + 1, last)
    ensures FullBetween(batch, quantity, size, first, last)
  {
    forall k | first <= k < last ensures batch(k).outcome.Done? && !Short(batch, quantity, size, k) {
      assert k == first || !Short(batch, quantity, size, k);
    }
  }

  lemma FullPrefix(batch: nat -> Batch, quantity: int, size: int, n: nat)
    requires n > 0 && FullBetween(batch, quantity, size, 0, n)
    ensures FullBetween(batch, quantity, size, 0, n - 1)
  {
    forall k | 0 <= k < n - 1 ensures batch(k).outcome.Done? && !Short(batch, quantity, size, k) {
      assert !Short(batch, quantity, size, k);
    }
  }

  /** Every call but the last got a full batch and left codes missing. */
  lemma {:induction false} LoopFull(batch: nat -> Batch, quantity: int, size: int, remaining: int, i: nat)
    requires size >= 1 && remaining == quantity - Total(batch, i)
    ensures var r := Loop(batch, size, remaining, i);
            && i <= r.calls
            && (r.calls > i ==>
                  FullBetween(batch, quantity, size, i, r.calls - 1) && Total(batch, r.calls - 1) < quantity)
    decreases if remaining > 0 then remaining else 0
  {
    NextTotal(batch, i);
    if GoesOn(batch, size, remaining, i) {
      LoopFull(batch, quantity, size, remaining - batch(i).made, i + 1);
      var last := Loop(batch, size, remaining, i).calls - 1;
      if last > i {
        FullFrom(batch, quantity, size, i, last);
      }
    }
  }

  /** A loop that did not fail stops with the quantity reached, or after a short batch. */
  lemma {:induction false} LoopStops(batch: nat -> Batch, quantity: int, size: int, remaining: int, i: nat)
    requires size >= 1 && remaining == quantity - Total(batch, i)
    requires !Loop(batch, size, remaining, i).failed
    ensures var r := Loop(batch, size, remaining, i);
            && i <= r.calls
            && (Total(batch, r.calls) >= quantity || (r.calls > i && Short(batch, quantity, size, r.calls - 1)))
    decreases if remaining > 0 then remaining else 0
  {
    NextTotal(batch, i);
    if GoesOn(batch, size, remaining, i) {
      LoopStops(batch, quantity, size, remaining - batch(i).made, i + 1);
    }
  }

  /**
   The whole loop, for any positive quantity: it makes a first call; every call but the last
   got a full batch and still left codes missing; it fails exactly on a failed call; otherwise
   it is short of the quantity exactly when the last batch was short.
   */
  lemma LoopMeaning(batch: nat -> Batch, quantity: int, size: int)
    requires size >= 1 && quantity > 0
    ensures var r := Loop(batch, size, quantity, 0);
            && r.calls > 0
            && FullBetween(batch, quantity, size, 0, r.calls - 1)
            && Total(batch, r.calls - 1) < quantity
            && (r.failed <==> !batch(r.calls - 1).outcome.Done?)
            && (!r.failed ==> r.total == Total(batch, r.calls))
            && (!r.failed ==> (r.total < quantity <==> Short(batch, quantity, size, r.calls - 1)))
  {
    LoopFrom(batch, quantity, size, quantity, 0);
  }

  /** The same from any call on, with remaining codes to go and some of them missing. */
  lemma LoopFrom(batch: nat -> Batch, quantity: int, size: int, remaining: int, i: nat)
    requires size >= 1 && remaining > 0 && remaining == quantity - Total(batch, i)
    ensures var r := Loop(batch, size, remaining, i);
            && r.calls > i
            && FullBetween(batch, quantity, size, i, r.calls - 1)
            && Total(batch, r.calls - 1) < quantity
            && (r.failed <==> !batch(r.calls - 1).outcome.Done?)
            && (!r.failed ==> r.total == Total(batch, r.calls) - Total(batch, i))
            && (!r.failed ==> (Total(batch, r.calls) < quantity <==> Short(batch, quantity, size, r.calls - 1)))
  {
    LoopOutcomes(batch, size, remaining, i);
    LoopFull(batch, quantity, size, remaining, i);
    var r := Loop(batch, size, remaining, i);
    if !r.failed {
      LoopTotal(batch, quantity, size, remaining, i);
      LoopStops(batch, quantity, size, remaining, i);
      LastBatch(batch, quantity, size, r.calls);
    }
  }

  lemma LastBatch(batch: nat -> Batch, quantity: int, size: int, n: nat)
    requires n > 0 && Total(batch, n - 1) < quantity
    requires Total(batch, n) >= quantity || Short(batch, quantity, size, n - 1)
    ensures Total(batch, n) < quantity <==> Short(batch, quantity, size, n - 1)
  {
    NextTotal(batch, n - 1);
  }

  /** Batches that hold no more than was asked never add up to more than the quantity. */
  lemma LoopWithin(batch: nat -> Batch, quantity: int, size: int)
    requires size >= 1 && quantity > 0 && !Loop(batch, size, quantity, 0).failed
    requires WithinWanted(batch, quantity, size, Loop(batch, size, quantity, 0).calls)
    ensures Loop(batch, size, quantity, 0).total <= quantity
  {
    LoopMeaning(batch, quantity, size);
    var last := Loop(batch, size, quantity, 0).calls - 1;
    NextTotal(batch, last);
    assert batch(last).made <= Wanted(batch, quantity, size, last);
  }

  /** No more calls are made than the quantity needs: full batches before the last do not reach it. */
  lemma LoopCalls(batch: nat -> Batch, quantity: int, size: int, calls: nat)
    requires size >= 1 && quantity > 0 && calls == Loop(batch, size, quantity, 0).calls
    ensures calls > 0 && Times(calls - 1, size) < quantity
  {
    LoopMeaning(batch, quantity, size);
    FullBatches(batch, quantity, size, calls - 1);
  }

  lemma {:induction false} FullBatches(batch: nat -> Batch, quantity: int, size: int, n: nat)
    requires FullBetween(batch, quantity, size, 0, n) && Total(batch, n) < quantity
    ensures Times(n, size) <= Total(batch, n)
    decreases n
  {
    if n > 0 {
      NextTotal(batch, n - 1);
      assert !Short(batch, quantity, size, n - 1);
      FullPrefix(batch, quantity, size, n);
      FullBatches(batch, quantity, size, n - 1);
    }
  }

  /** Only the codes of the campaign differ. */
  ghost predicate OnlyCodes(own: Remote, own': Remote, campaign: Id) {
    own' == own.(codes := own'.codes) && own'.codes - {campaign} == own.codes - {campaign}
  }

  /** Only the campaign's pool grew, by exactly these new codes. */
  ghost predicate Grown(own: Remote, own': Remote, campaign: Id, got: seq<CodeValue>) {
    && OnlyCodes(own, own', campaign)
    && PoolOf(own', campaign) == PoolOf(own, campaign) + got
    && got == NewCodes(campaign, |PoolOf(own, campaign)|, |got|)
  }

  lemma GrownNone(own: Remote, campaign: Id)
    ensures Grown(own, own, campaign, [])
  {
    assert PoolOf(own, campaign) + [] == PoolOf(own, campaign);
  }

  /** New codes never repeat one another. */
  lemma GrownDistinct(own: Remote, own': Remote, campaign: Id, got: seq<CodeValue>)
    requires Grown(own, own', campaign, got)
    ensures !Repeated(got)
  {
    var start := |PoolOf(own, campaign)|;
    assert forall i | 0 <= i < |got| :: got[i] == NewCodes(campaign, start, |got|)[i];
  }

  lemma GrownMore(own: Remote, own1: Remote, own2: Remote, campaign: Id, got: seq<CodeValue>, more: seq<CodeValue>)
    requires Grown(own, own1, campaign, got) && Grown(own1, own2, campaign, more)
    ensures Grown(own, own2, campaign, got + more)
  {
    var start := PoolOf(own, campaign);
    assert start + got + more == start + (got + more);
    assert NewCodes(campaign, |start|, |got + more|) == got + more;
  }

  const NOTHING: Remote := Remote(map[], {}, map[], map[])

  function MapWithin<V>(m: map<Id, V>, ids: set<Id>): map<Id, V> {
    map i | i in m && i in ids :: m[i]
  }

  function MapBelow<V>(m: map<Id, V>, bound: Id): map<Id, V> {
    map i | i in m && i < bound :: m[i]
  }

  /** The entries under the given ids. */
  function Within(r: Remote, ids: set<Id>): Remote {
    Remote(MapWithin(r.items, ids), r.campaigns * ids, MapWithin(r.linked, ids), MapWithin(r.codes, ids))
  }

  /** The entries under all other ids. */
  function Outside(r: Remote, ids: set<Id>): Remote {
    Remote(r.items - ids, r.campaigns - ids, r.linked - ids, r.codes - ids)
  }

  /** The entries under ids below bound. */
  function Below(r: Remote, bound: Id): Remote {
    Remote(
      MapBelow(r.items, bound),
      (set c | c in r.campaigns && c < bound),
      MapBelow(r.linked, bound),
      MapBelow(r.codes, bound))
  }

  ghost predicate AllBelow(r: Remote, bound: Id) {
    && (forall i | i in r.items :: i < bound)
    && (forall c | c in r.campaigns :: c < bound)
    && (forall c | c in r.linked :: c < bound)
    && (forall c | c in r.codes :: c < bound)
  }

  function Union(r: Remote, s: Remote): Remote {
    Remote(r.items + s.items, r.campaigns + s.campaigns, r.linked + s.linked, r.codes + s.codes)
  }

  lemma MapUnion<V>(left: map<Id, V>, own: map<Id, V>, ids: set<Id>)
    requires own == MapWithin(own, ids) && left == left - ids
    ensures MapWithin(left + own, ids) == own && (left + own) - ids == left
  {
  }

  lemma UnionParts(left: Remote, own: Remote, ids: set<Id>)
    requires own == Within(own, ids) && left == Outside(left, ids)
    ensures Within(Union(left, own), ids) == own
    ensures Outside(Union(left, own), ids) == left
  {
    MapUnion(left.items, own.items, ids);
    MapUnion(left.linked, own.linked, ids);
    MapUnion(left.codes, own.codes, ids);
    assert left.campaigns * ids == {} && own.campaigns <= ids;
  }

  lemma MapTwice<V>(m: map<Id, V>, ids: set<Id>)
    ensures MapWithin(MapWithin(m, ids), ids) == MapWithin(m, ids)
  {
  }

  lemma WithinTwice(r: Remote, ids: set<Id>)
    ensures Within(Within(r, ids), ids) == Within(r, ids)
  {
    MapTwice(r.items, ids);
    MapTwice(r.linked, ids);
    MapTwice(r.codes, ids);
  }

  lemma MapApart<V>(m: map<Id, V>, ids: set<Id>, bound: Id)
    ensures MapBelow(m - ids, bound) - ids == MapBelow(m - ids, bound)
  {
  }

  lemma LeftApart(r: Remote, ids: set<Id>, bound: Id)
    ensures var left := Below(Outside(r, ids), bound); Outside(left, ids) == left
  {
    MapApart(r.items, ids, bound);
    MapApart(r.linked, ids, bound);
    MapApart(r.codes, ids, bound);
  }

  /** What others leave, put together with the own entries. */
  function Merged(left: Remote, r: Remote, ids: set<Id>, bound: Id): Remote {
    Union(Below(Outside(left, ids), bound), Within(r, ids))
  }

  lemma MergedParts(left: Remote, r: Remote, ids: set<Id>, bound: Id)
    ensures Within(Merged(left, r, ids, bound), ids) == Within(r, ids)
    ensures Outside(Merged(left, r, ids, bound), ids) == Below(Outside(left, ids), bound)
  {
    WithinTwice(r, ids);
    LeftApart(left, ids, bound);
    UnionParts(Below(Outside(left, ids), bound), Within(r, ids), ids);
  }

  lemma MergedBelow(left: Remote, r: Remote, ids: set<Id>, old_: Id, bound: Id)
    requires AllBelow(r, old_) && old_ <= bound
    ensures AllBelow(Merged(left, r, ids, bound), bound)
  {
  }

  /** A fresh id added to the own ones moves no entry of a map that does not have it. */
  lemma MapFresh<V>(m: map<Id, V>, ids: set<Id>, id: Id)
    requires id !in m
    ensures MapWithin(m, ids + {id}) == MapWithin(m, ids) && m - (ids + {id}) == m - ids
  {
  }

  lemma MapNew<V>(m: map<Id, V>, ids: set<Id>, id: Id, v: V)
    requires id !in m
    ensures MapWithin(m[id := v], ids + {id}) == MapWithin(m, ids)[id := v] && m[id := v] - (ids + {id}) == m - ids
  {
  }

  /** A new entry under a fresh id counts as own and leaves the rest apart. */
  lemma NewItem(r: Remote, ids: set<Id>, id: Id, booth: Id)
    requires AllBelow(r, id)
    ensures var r' := r.(items := r.items[id := booth]);
            && Within(r', ids + {id}) == Within(r, ids).(items := Within(r, ids).items[id := booth])
            && Outside(r', ids + {id}) == Outside(r, ids)
  {
    MapNew(r.items, ids, id, booth);
    MapFresh(r.linked, ids, id);
    MapFresh(r.codes, ids, id);
    assert r.campaigns * (ids + {id}) == r.campaigns * ids && r.campaigns - (ids + {id}) == r.campaigns - ids;
  }

  lemma NewCampaign(r: Remote, ids: set<Id>, id: Id)
    requires AllBelow(r, id)
    ensures var r' := r.(campaigns := r.campaigns + {id});
            && Within(r', ids + {id}) == Within(r, ids).(campaigns := Within(r, ids).campaigns + {id})
            && Outside(r', ids + {id}) == Outside(r, ids)
  {
    MapFresh(r.items, ids, id);
    MapFresh(r.linked, ids, id);
    MapFresh(r.codes, ids, id);
    var c := r.campaigns;
    assert (c + {id}) * (ids + {id}) == c * ids + {id} && (c + {id}) - (ids + {id}) == c - ids;
  }

  /**
   The AGS platform. Fresh ids come from a counter above every id in use. mine holds the ids
   made for the provisioning in progress, also behind lost answers: the entries that other
   callers cannot reach. As history, theirs is what those callers last left.
   */
  class AgsClient {
    var items: map<Id, Id>
    var campaigns: set<Id>
    var linked: map<Id, Id>
    var codes: map<Id, seq<CodeValue>>
    var nextId: Id
    var bootstraps: nat
    var mine: set<Id>
    ghost var theirs: Remote

    ghost predicate Valid()
      reads this
    {
      && AllBelow(Abs(), nextId)
      && (forall i | i in mine :: i < nextId)
    }

    /** Nothing outside mine differs from what the other callers left. */
    ghost predicate Apart()
      reads this
    {
      Outside(Abs(), mine) == theirs
    }

    function Abs(): Remote
      reads this
    {
      Remote(items, campaigns, linked, codes)
    }

    ghost function Own(): Remote
      reads this
    {
      Within(Abs(), mine)
    }

    /** A new provisioning starts. */
    method Start()
      requires Valid()
      modifies this`mine, this`theirs
      ensures Valid() && Apart() && mine == {} && Own() == NOTHING && theirs == Abs()
    {
      mine, theirs := {}, Abs();
    }

    /** Other callers act: anything outside mine may change, and ids are taken. */
    method Others(e: Elsewhere)
      requires Valid() && Apart()
      modifies this`items, this`campaigns, this`linked, this`codes, this`nextId, this`theirs
      ensures Valid() && Apart() && Own() == old(Own()) && nextId >= old(nextId)
      ensures e.Idle? ==> Abs() == old(Abs()) && theirs == old(theirs)
      ensures e.Busy? ==> theirs == Below(Outside(e.left, mine), nextId) && nextId == old(nextId) + e.taken
    {
      if e.Idle? {
        return;
      }
      var bound := nextId + e.taken;
      var all := Merged(e.left, Abs(), mine, bound);
      MergedParts(e.left, Abs(), mine, bound);
      MergedBelow(e.left, Abs(), mine, nextId, bound);
      Replace(all, bound);
    }

    /** All tables at once. */
    method Replace(all: Remote, bound: Id)
      modifies this`items, this`campaigns, this`linked, this`codes, this`nextId, this`theirs
      ensures Abs() == all && nextId == bound && theirs == Outside(all, mine)
    {
      items, campaigns, linked, codes, nextId := all.items, all.campaigns, all.linked, all.codes, bound;
      theirs := Outside(all, mine);
    }

    method Bootstrap(o: Outcome) returns (ok: bool)
      modifies this`bootstraps
      ensures ok <==> o.Done?
      ensures bootstraps == old(bootstraps) + 1
    {
      bootstraps := bootstraps + 1;
      ok := o.Done?;
    }

    method CreateCampaign(o: Outcome) returns (id: Option<Id>)
      requires Valid() && Apart()
      modifies this`campaigns, this`nextId, this`mine
      ensures Valid() && Apart() && nextId >= old(nextId)
      ensures id == if o.Done? then Some(old(nextId)) else None
      ensures campaigns == if o.Refused? then old(campaigns) else old(campaigns) + {old(nextId)}
      ensures mine == if o.Refused? then old(mine) else old(mine) + {old(nextId)}
      ensures Own() == if o.Refused? then old(Own()) else old(Own()).(campaigns := old(Own()).campaigns + {old(nextId)})
    {
      if o.Refused? {
        return None;
      }
      id := if o.Done? then Some(nextId) else None;
      NewCampaign(Abs(), mine, nextId);
      mine, campaigns, nextId := mine + {nextId}, campaigns + {nextId}, nextId + 1;
    }

    method CreateItem(booth: Id, o: Outcome) returns (id: Option<Id>)
      requires Valid() && Apart()
      modifies this`items, this`nextId, this`mine
      ensures Valid() && Apart() && nextId >= old(nextId)
      ensures id == if o.Done? then Some(old(nextId)) else None
      ensures items == if o.Refused? then old(items) else old(items)[old(nextId) := booth]
      ensures mine == if o.Refused? then old(mine) else old(mine) + {old(nextId)}
      ensures Own() == if o.Refused? then old(Own()) else old(Own()).(items := old(Own()).items[old(nextId) := booth])
    {
      if o.Refused? {
        return None;
      }
      id := if o.Done? then Some(nextId) else None;
      NewItem(Abs(), mine, nextId, booth);
      mine, items, nextId := mine + {nextId}, items[nextId := booth], nextId + 1;
    }

    method LinkItemToCampaign(campaign: Id, item: Id, o: Outcome) returns (ok: bool)
      requires Valid()
      modifies this`linked
      ensures Valid()
      ensures ok <==> o.Done? && campaign in campaigns && item in items
      ensures linked ==
                if o.Refused? || campaign !in campaigns || item !in items then old(linked)
                else old(linked)[campaign := item]
      ensures old(Apart()) && campaign in mine && item in mine ==>
                && Apart()
                && Own() == if linked == old(linked) then old(Own())
                     else old(Own()).(linked := old(Own()).linked[campaign := item])
    {
      if o.Refused? || campaign !in campaigns || item !in items {
        return false;
      }
      linked := linked[campaign := item];
      ok := o.Done?;
    }

    function Pool(campaign: Id): seq<CodeValue>
      reads this
    {
      PoolOf(Abs(), campaign)
    }

    method CreateCodes(campaign: Id, b: Batch) returns (made: Option<seq<CodeValue>>)
      requires Valid()
      modifies this`codes
      ensures Valid()
      ensures var fresh_ := NewCodes(campaign, |old(Pool(campaign))|, b.made);
              && made == (if b.outcome.Done? && campaign in campaigns then Some(fresh_) else None)
              && codes ==
                   if b.outcome.Refused? || campaign !in campaigns then old(codes)
                   else old(codes)[campaign := old(Pool(campaign)) + fresh_]
      ensures old(Apart()) && campaign in mine ==>
                && Apart()
                && PoolOf(Own(), campaign) == Pool(campaign)
                && Own() == old(Own()).(codes := Own().codes)
                && Own().codes - {campaign} == old(Own()).codes - {campaign}
    {
      if b.outcome.Refused? || campaign !in campaigns {
        return None;
      }
      var before := Pool(campaign);
      var out := NewCodes(campaign, |before|, b.made);
      codes := codes[campaign := before + out];
      made := if b.outcome.Done? then Some(out) else None;
    }

    /** Removes the campaign and its codes; the link table keeps its entry. */
    method DeleteCampaign(campaign: Id, o: Outcome) returns (ok: bool)
      requires Valid()
      modifies this`campaigns, this`codes
      ensures Valid() && (ok <==> o.Done?)
      ensures campaigns == if o.Refused? then old(campaigns) else old(campaigns) - {campaign}
      ensures codes == if o.Refused? then old(codes) else old(codes) - {campaign}
      ensures old(Apart()) && campaign in mine ==>
                && Apart()
                && Own() ==
                     if o.Refused? then old(Own())
                     else old(Own()).(campaigns := old(Own()).campaigns - {campaign},
                         codes := old(Own()).codes - {campaign})
    {
      if !o.Refused? {
        campaigns, codes := campaigns - {campaign}, codes - {campaign};
      }
      ok := o.Done?;
    }

    method DeleteItem(item: Id, o: Outcome) returns (ok: bool)
      requires Valid()
      modifies this`items
      ensures Valid() && (ok <==> o.Done?)
      ensures items == if o.Refused? then old(items) else old(items) - {item}
      ensures old(Apart()) && item in mine ==>
                && Apart()
                && Own() == if o.Refused? then old(Own()) else old(Own()).(items := old(Own()).items - {item})
    {
      if !o.Refused? {
        items := items - {item};
      }
      ok := o.Done?;
    }
  }

  /** The remote stage a provisioning reaches: the first step that is not done, or all of the pair. */
  datatype Stage = BootstrapFailed | CampaignFailed | ItemFailed | Later

  /** ready: the bootstrap has succeeded, now or earlier. */
  function StageOf(ready: bool, p: Plan): Stage {
    if !ready then BootstrapFailed
    else if !p.campaign.Done? then CampaignFailed
    else if !p.item.Done? then ItemFailed
    else Later
  }

  /**
   Exactly when a failed provisioning leaves nothing of its own among the remote items,
   campaigns and codes: no create call took effect behind a lost answer, and no compensating
   delete that was attempted was refused.
   */
  predicate Restores(ready: bool, p: Plan) {
    match StageOf(ready, p)
    case BootstrapFailed => true
    case CampaignFailed => p.campaign.Refused?
    case ItemFailed => p.item.Refused? && !p.deleteCampaign.Refused?
    case Later => !p.deleteCampaign.Refused? && !p.deleteItem.Refused?
  }

  /** Exactly when a failed provisioning leaves its entry in the link table behind. */
  predicate LeavesLink(ready: bool, p: Plan) {
    StageOf(ready, p).Later? && !p.link.Refused?
  }

  /** If failed calls have no effect and the compensating deletes work, nothing is left. */
  lemma CleanFailuresRestore(ready: bool, p: Plan)
    requires !p.campaign.AnswerLost? && !p.item.AnswerLost? && p.deleteCampaign.Done? && p.deleteItem.Done?
    ensures Restores(ready, p)
  {
  }

  /** All remote steps after the bootstrap work. */
  predicate RemoteWorks(p: Plan, quantity: int, size: int)
    requires size >= 1
  {
    p.campaign.Done? && p.item.Done? && p.link.Done? && !Loop(p.batch, size, quantity, 0).failed
  }

  /** The answer of the database transaction. */
  function TxAnswer(db: Local, slug: string, values: seq<CodeValue>, trouble: Option<TxStep>): Option<Failure> {
    if trouble == Some(AtPlaytest) then Some(Internal)
    else if SlugTaken(db, slug) then Some(AlreadyExists)
    else if trouble == Some(AtCodes) then Some(Internal)
    else if Repeated(values) then Some(AlreadyExists)
    else if trouble == Some(AtCommit) then Some(Internal)
    else None
  }

  class Service {
    const ags: AgsClient
    const configuredBatch: int
    var db: Local
    var bootstrapDone: bool

    constructor (ags: AgsClient, configuredBatch: int)
      ensures this.ags == ags && this.configuredBatch == configuredBatch && db == Local(map[], map[]) && !bootstrapDone
    {
      this.ags, this.configuredBatch := ags, configuredBatch;
      db, bootstrapDone := Local(map[], map[]), false;
    }

    function BatchSize(): (n: int)
      ensures n >= 1
      ensures configuredBatch > 0 ==> n == configuredBatch
      ensures configuredBatch <= 0 ==> n == 1000
    {
      if configuredBatch <= 0 then DEFAULT_BATCH else configuredBatch
    }

    /** Runs Bootstrap until it has succeeded once, and never again after that. */
    method EnsureBootstrap(o: Outcome) returns (ok: bool)
      modifies this`bootstrapDone, ags`bootstraps
      ensures ok <==> old(bootstrapDone) || o.Done?
      ensures bootstrapDone == ok
      ensures ags.bootstraps == old(ags.bootstraps) + if old(bootstrapDone) then 0 else 1
    {
      if bootstrapDone {
        return true;
      }
      ok := ags.Bootstrap(o);
      if ok {
        bootstrapDone := true;
      }
    }

    /**
     The batch loop, on a campaign of this provisioning. It ends whatever the batches hold,
     collects exactly what the campaign's pool gained, reports a shortfall exactly when there
     is one, and asks for no more batches than the quantity needs.
     */
    method CreateCodesBatched(campaign: Id, quantity: int, p: Plan)
      returns (out: Option<seq<CodeValue>>, partial: bool, calls: nat)
      requires ags.Valid() && ags.Apart() && campaign in ags.mine
      modifies ags`items, ags`campaigns, ags`linked, ags`codes, ags`nextId, ags`theirs
      ensures ags.Valid() && ags.Apart()
      ensures OnlyCodes(old(ags.Own()), ags.Own(), campaign)
      ensures AllIdle(p) ==> ags.theirs == old(ags.theirs)
      ensures out.Some? ==> Grown(old(ags.Own()), ags.Own(), campaign, out.value)
      ensures out.Some? ==> (partial <==> |out.value| < quantity)
      ensures var end := Loop(p.batch, BatchSize(), quantity, 0);
              if campaign in old(ags.Own()).campaigns || quantity <= 0 then
                (out.None? <==> end.failed) && calls == end.calls && (out.Some? ==> |out.value| == end.total)
              else
                out.None? && calls == 1
    {
      var size := BatchSize();
      var got: seq<CodeValue> := [];
      var remaining := quantity;
      ghost var own, own' := ags.Own(), ags.Own();
      ghost var end := Loop(p.batch, size, quantity, 0);
      calls := 0;
      GrownNone(own, campaign);
      while remaining > 0
        invariant ags.Valid() && ags.Apart() && ags.Own() == own'
        invariant Grown(own, own', campaign, got)
        invariant AllIdle(p) ==> ags.theirs == old(ags.theirs)
        invariant calls > 0 ==> campaign in own.campaigns
        invariant calls == 0 ==> remaining == quantity
        invariant remaining == quantity - |got|
        invariant Continues(p.batch, size, end, remaining, calls, |got|)
        decreases remaining
      {
        var want := Min(remaining, size);
        var made;
        made, own' := OneBatch(own, own', got, campaign, calls, p);
        calls := calls + 1;
        if made.None? {
          return None, false, calls;
        }
        got := got + made.value;
        remaining := remaining - |made.value|;
        if |made.value| < want {
          break;
        }
      }
      return Some(got), |got| < quantity, calls;
    }

    /**
     Call number i of the batch loop, after whatever others did; own0 is what the provisioning
     held before the loop and got the codes of the earlier calls.
     */
    method OneBatch(ghost own0: Remote, ghost own: Remote, ghost got: seq<CodeValue>, campaign: Id, i: nat, p: Plan)
      returns (made: Option<seq<CodeValue>>, ghost own': Remote)
      requires ags.Valid() && ags.Apart() && campaign in ags.mine && ags.Own() == own && Grown(own0, own, campaign, got)
      modifies ags`items, ags`campaigns, ags`linked, ags`codes, ags`nextId, ags`theirs
      ensures ags.Valid() && ags.Apart() && ags.Own() == own'
      ensures OnlyCodes(own0, own', campaign)
      ensures AllIdle(p) ==> ags.theirs == old(ags.theirs)
      ensures made.Some? <==> campaign in own0.campaigns && p.batch(i).outcome.Done?
      ensures made.Some? ==> |made.value| == p.batch(i).made && Grown(own0, own', campaign, got + made.value)
    {
      ags.Others(p.before(ForBatch(i)));
      assert campaign in ags.campaigns <==> campaign in ags.Own().campaigns;
      assert PoolOf(ags.Own(), campaign) == ags.Pool(campaign);
      made := ags.CreateCodes(campaign, p.batch(i));
      own' := ags.Own();
      if made.Some? {
        GrownMore(own0, own, own', campaign, got, made.value);
      }
    }

    /** Both deletes are attempted; an empty item id means no item was created. */
    method Cleanup(item: Option<Id>, campaign: Id, p: Plan) returns (allOk: bool)
      requires ags.Valid() && ags.Apart() && campaign in ags.mine && (item.Some? ==> item.value in ags.mine)
      modifies ags`items, ags`campaigns, ags`linked, ags`codes, ags`nextId, ags`theirs
      ensures ags.Valid() && ags.Apart()
      ensures allOk <==> p.deleteCampaign.Done? && (item.Some? ==> p.deleteItem.Done?)
      ensures AllIdle(p) ==> ags.theirs == old(ags.theirs)
      ensures var own := old(ags.Own());
              var left := if p.deleteCampaign.Refused? then own
                          else own.(campaigns := own.campaigns - {campaign}, codes := own.codes - {campaign});
              ags.Own() ==
                if item.None? || p.deleteItem.Refused? then left else left.(items := left.items - {item.value})
    {
      ags.Others(p.before(ForDeleteCampaign));
      allOk := ags.DeleteCampaign(campaign, p.deleteCampaign);
      if item.Some? {
        ags.Others(p.before(ForDeleteItem));
        var ok := ags.DeleteItem(item.value, p.deleteItem);
        allOk := allOk && ok;
      }
    }

    /**
     The database transaction: the playtest row, then its codes, then the commit. It fails as
     a whole on a taken slug, on a repeated code value, or at a step that fails otherwise.
     */
    method InsertPlaytest(id: Id, row: Row, values: seq<CodeValue>, trouble: Option<TxStep>)
      returns (err: Option<Failure>)
      requires id !in db.playtests && id !in db.codes
      modifies this`db
      ensures err == TxAnswer(old(db), row.slug, values, trouble)
      ensures db ==
                if err.Some? then old(db)
                else Local(old(db).playtests[id := row], old(db).codes[id := values])
    {
      var copy := db;
      if trouble == Some(AtPlaytest) {
        return Some(Internal);
      }
      if SlugTaken(copy, row.slug) {
        return Some(AlreadyExists);
      }
      copy := copy.(playtests := copy.playtests[id := row]);
      if trouble == Some(AtCodes) {
        return Some(Internal);
      }
      if Repeated(values) {
        return Some(AlreadyExists);
      }
      copy := copy.(codes := copy.codes[id := values]);
      if trouble == Some(AtCommit) {
        return Some(Internal);
      }
      db := copy;
      return None;
    }

    /** The campaign, the item and their link; on failure the compensating deletes have run. */
    method CreateLinkedPair(p: Plan) returns (pair: Option<(Id, Id)>)
      requires ags.Valid() && ags.Apart() && ags.mine == {} && ags.Own() == NOTHING
      modifies ags`items, ags`campaigns, ags`linked, ags`codes, ags`nextId, ags`mine, ags`theirs
      ensures ags.Valid() && ags.Apart()
      ensures AllIdle(p) ==> ags.theirs == old(ags.theirs)
      ensures pair.Some? <==> p.campaign.Done? && p.item.Done? && p.link.Done?
      ensures pair.Some? ==>
                && var (campaign, item) := pair.value;
                && ags.mine == {campaign, item}
                && ags.Own() == Remote(map[item := campaign], {campaign}, map[campaign := item], map[])
      ensures pair.None? ==> (Restores(true, p) <==> Cleared(ags.Own()))
      ensures pair.None? ==> (ags.Own().linked != map[] <==> LeavesLink(true, p))
    {
      ags.Others(p.before(ForCampaign));
      var campaign := ags.CreateCampaign(p.campaign);
      if campaign.None? {
        return None;
      }
      var item := CreateItemOrClean(campaign.value, p);
      if item.None? {
        return None;
      }
      var linked := LinkOrClean(campaign.value, item.value, p);
      return if linked then Some((campaign.value, item.value)) else None;
    }

    method CreateItemOrClean(campaign: Id, p: Plan) returns (item: Option<Id>)
      requires p.campaign.Done?
      requires ags.Valid() && ags.Apart() && ags.mine == {campaign} && ags.Own() == NOTHING.(campaigns := {campaign})
      modifies ags`items, ags`campaigns, ags`linked, ags`codes, ags`nextId, ags`mine, ags`theirs
      ensures ags.Valid() && ags.Apart()
      ensures AllIdle(p) ==> ags.theirs == old(ags.theirs)
      ensures item.Some? <==> p.item.Done?
      ensures item.Some? ==>
                && ags.mine == {campaign, item.value}
                && ags.Own() == Remote(map[item.value := campaign], {campaign}, map[], map[])
      ensures item.None? ==> (Restores(true, p) <==> Cleared(ags.Own())) && ags.Own().linked == map[]
    {
      ags.Others(p.before(ForItem));
      ghost var k := ags.nextId;
      item := ags.CreateItem(campaign, p.item);
      if item.None? {
        assert !p.item.Refused? ==> k in ags.Own().items;
        var _ := Cleanup(None, campaign, p);
      }
    }

    method LinkOrClean(campaign: Id, item: Id, p: Plan) returns (ok: bool)
      requires p.campaign.Done? && p.item.Done?
      requires ags.Valid() && ags.Apart() && campaign in ags.mine && item in ags.mine
      requires ags.Own() == Remote(map[item := campaign], {campaign}, map[], map[])
      modifies ags`items, ags`campaigns, ags`linked, ags`codes, ags`nextId, ags`theirs
      ensures ags.Valid() && ags.Apart()
      ensures AllIdle(p) ==> ags.theirs == old(ags.theirs)
      ensures ok <==> p.link.Done?
      ensures ok ==> ags.Own() == Remote(map[item := campaign], {campaign}, map[campaign := item], map[])
      ensures !ok ==> (Restores(true, p) <==> Cleared(ags.Own())) && (ags.Own().linked == map[] <==> p.link.Refused?)
    {
      ags.Others(p.before(ForLink));
      assert campaign in ags.Own().campaigns && item in ags.Own().items;
      ok := ags.LinkItemToCampaign(campaign, item, p.link);
      if !ok {
        CleanPair(item, campaign, p);
      }
    }

    /** Cleanup after the pair was created: what is left of it. */
    method CleanPair(item: Id, campaign: Id, p: Plan)
      requires p.campaign.Done? && p.item.Done?
      requires ags.Valid() && ags.Apart() && campaign in ags.mine && item in ags.mine
      requires PairOnly(ags.Own(), item, campaign)
      modifies ags`items, ags`campaigns, ags`linked, ags`codes, ags`nextId, ags`theirs
      ensures ags.Valid() && ags.Apart()
      ensures AllIdle(p) ==> ags.theirs == old(ags.theirs)
      ensures Restores(true, p) <==> Cleared(ags.Own())
      ensures ags.Own().linked == old(ags.Own()).linked
    {
      ghost var own := ags.Own();
      assert item in own.items && campaign in own.campaigns;
      var _ := Cleanup(Some(item), campaign, p);
    }

    /** The remote steps after the bootstrap. A failure has already run its compensating deletes. */
    method ProvisionRemote(quantity: int, p: Plan) returns (made: Option<Made>)
      requires ags.Valid() && ags.Apart() && ags.mine == {} && ags.Own() == NOTHING && quantity >= 0
      modifies ags`items, ags`campaigns, ags`linked, ags`codes, ags`nextId, ags`mine, ags`theirs
      ensures ags.Valid() && ags.Apart()
      ensures AllIdle(p) ==> ags.theirs == old(ags.theirs)
      ensures made.Some? <==> RemoteWorks(p, quantity, BatchSize())
      ensures made.Some? ==>
                && Provisioned(ags.Own(), ags.mine, made.value, quantity)
                && |made.value.values| == Loop(p.batch, BatchSize(), quantity, 0).total
      ensures made.None? ==> (Restores(true, p) <==> Cleared(ags.Own()))
      ensures made.None? ==> (ags.Own().linked != map[] <==> LeavesLink(true, p))
    {
      var pair := CreateLinkedPair(p);
      if pair.None? {
        return None;
      }
      var (campaign, item) := pair.value;
      ghost var own := ags.Own();
      assert campaign in own.campaigns;
      var values, short, _ := CreateCodesBatched(campaign, quantity, p);
      if values.None? {
        CleanPair(item, campaign, p);
        return None;
      }
      GrownDistinct(own, ags.Own(), campaign, values.value);
      made := Some(Made(item, campaign, values.value, short));
    }

    /**
     CreatePlaytest for AGS_CAMPAIGN; found is the database as the transaction finds it. The
     answer, and what is left on the platform, follow from the plan alone. On success exactly
     one linked item and campaign, one playtest row with both ids, and all generated codes in
     its pool; on error the database holds nothing of the call, and its remote items, campaigns
     and codes are gone exactly when Restores says. The link table is not cleaned: deleting a
     campaign leaves its link behind. Whatever others have on the platform is as they left it,
     also while they keep changing it.
     */
    method CreatePlaytest(id: Id, slug: string, quantity: Option<int>, p: Plan, found: Local)
      returns (err: Option<Failure>, partial: bool)
      requires ags.Valid() && id !in found.playtests && id !in found.codes
      modifies this`db, this`bootstrapDone, ags
      ensures ags.Valid() && ags.Apart()
      ensures AllIdle(p) ==> ags.theirs == old(ags.Abs())
      ensures !InRange(quantity) ==> ags.Abs() == old(ags.Abs())
      ensures var ready := old(bootstrapDone) || p.bootstrap.Done?;
              && err == Answer(ready, quantity, p, BatchSize(), found, slug)
              && (err.Some? && InRange(quantity) ==> (Restores(ready, p) <==> Cleared(ags.Own())))
              && (err.Some? && InRange(quantity) ==> (ags.Own().linked != map[] <==> LeavesLink(ready, p)))
      ensures err.Some? ==> db == old(db) || db == found
      ensures err.None? ==>
                && InRange(quantity) && id in db.playtests && id in db.codes
                && var made := Made(db.playtests[id].item, db.playtests[id].campaign, db.codes[id], partial);
                && db == Local(found.playtests[id := Row(slug, made.item, made.campaign)],
                     found.codes[id := made.values])
                && Provisioned(ags.Own(), ags.mine, made, quantity.value)
                && |made.values| == Loop(p.batch, BatchSize(), quantity.value, 0).total
    {
      partial := false;
      ags.Start();
      if quantity.None? || quantity.value < MIN_QTY || quantity.value > MAX_QTY {
        return Some(InvalidArgument), false;
      }
      var ready := EnsureBootstrap(p.bootstrap);
      if !ready {
        return Some(Upstream), false;
      }
      var made := ProvisionRemote(quantity.value, p);
      if made.None? {
        return Some(Upstream), false;
      }
      db := found;
      err := StoreOrClean(id, slug, made.value, p, quantity.value);
      if err.None? {
        partial := made.value.partial;
      }
    }

    /** The transaction, and the compensating deletes when it fails. */
    method StoreOrClean(id: Id, slug: string, m: Made, p: Plan, ghost quantity: int) returns (err: Option<Failure>)
      requires p.campaign.Done? && p.item.Done? && p.link.Done?
      requires ags.Valid() && ags.Apart() && Provisioned(ags.Own(), ags.mine, m, quantity)
      requires id !in db.playtests && id !in db.codes
      modifies this`db, ags`items, ags`campaigns, ags`linked, ags`codes, ags`nextId, ags`theirs
      ensures ags.Valid() && ags.Apart()
      ensures AllIdle(p) ==> ags.theirs == old(ags.theirs)
      ensures err == TxAnswer(old(db), slug, [], p.txFails)
      ensures err.Some? ==> db == old(db) && (Restores(true, p) <==> Cleared(ags.Own())) && ags.Own().linked != map[]
      ensures err.None? ==>
                && db == Local(old(db).playtests[id := Row(slug, m.item, m.campaign)], old(db).codes[id := m.values])
                && ags.Own() == old(ags.Own())
    {
      assert TxAnswer(db, slug, m.values, p.txFails) == TxAnswer(db, slug, [], p.txFails);
      err := InsertPlaytest(id, Row(slug, m.item, m.campaign), m.values, p.txFails);
      if err.Some? {
        assert m.campaign in ags.Own().linked;
        CleanPair(m.item, m.campaign, p);
      }
    }
  }

  /** The answer of CreatePlaytest as a function of the plan and the database its transaction finds. */
  function Answer(ready: bool, quantity: Option<int>, p: Plan, size: int, found: Local, slug: string): Option<Failure>
    requires size >= 1
  {
    if !InRange(quantity) then Some(InvalidArgument)
    else if !ready || !RemoteWorks(p, quantity.value, size) then Some(Upstream)
    else TxAnswer(found, slug, [], p.txFails)
  }

  /** Some playtest has the slug already. */
  ghost predicate Taken(found: Local, slug: string) {
    exists q :: q in found.playtests && found.playtests[q].slug == slug
  }

  /**
   The transaction's answers: Internal for a step that fails, except that a taken slug comes
   before the later steps.
   */
  lemma TxMeaning(found: Local, slug: string, values: seq<CodeValue>, trouble: Option<TxStep>)
    requires !Repeated(values)
    ensures var err := TxAnswer(found, slug, values, trouble);
            && (err == Some(AlreadyExists) <==> Taken(found, slug) && trouble != Some(AtPlaytest))
            && (err == Some(Internal) <==> trouble != None && (Taken(found, slug) ==> trouble == Some(AtPlaytest)))
            && (err == None <==> !Taken(found, slug) && trouble == None)
            && (err == None || err == Some(AlreadyExists) || err == Some(Internal))
  {
    assert Taken(found, slug) <==> SlugTaken(found, slug);
    match trouble {
      case None =>
      case Some(AtPlaytest) =>
      case Some(AtCodes) =>
      case Some(AtCommit) =>
    }
  }

  /** Every remote step worked, the last batch call included. */
  ghost predicate RemoteDone(ready: bool, p: Plan, quantity: int, size: int)
    requires size >= 1
  {
    var calls := Loop(p.batch, size, quantity, 0).calls;
    ready && p.campaign == Done && p.item == Done && p.link == Done && calls > 0 && p.batch(calls - 1).outcome == Done
  }

  /**
   What the answer comes to: InvalidArgument exactly for a quantity outside 1 to 50000,
   Upstream exactly when a remote step failed, and otherwise the transaction's.
   */
  lemma AnswerMeaning(ready: bool, quantity: Option<int>, p: Plan, size: int, found: Local, slug: string)
    requires size >= 1
    ensures var err := Answer(ready, quantity, p, size, found, slug);
            var inRange := quantity.Some? && 1 <= quantity.value <= 50_000;
            && (err == Some(InvalidArgument) <==> !inRange)
            && (inRange ==> (err == Some(Upstream) <==> !RemoteDone(ready, p, quantity.value, size)))
            && (inRange && RemoteDone(ready, p, quantity.value, size) ==> err == TxAnswer(found, slug, [], p.txFails))
            && (inRange && ready && AllDone(p) ==> err == if Taken(found, slug) then Some(AlreadyExists) else None)
  {
    TxMeaning(found, slug, [], p.txFails);
    if InRange(quantity) {
      LoopMeaning(p.batch, quantity.value, size);
      var calls := Loop(p.batch, size, quantity.value, 0).calls;
      assert AllDone(p) ==> p.batch(calls - 1).outcome.Done?;
    }
  }

  /**
   And the pool on success: as many codes as the batches asked for held, short of the quantity
   exactly when the last batch was, never over if no batch was, and not short if all were full.
   */
  lemma AnsweredPool(ready: bool, quantity: Option<int>, p: Plan, size: int, found: Local, slug: string)
    requires size >= 1 && Answer(ready, quantity, p, size, found, slug) == None
    ensures var want, end := quantity.value, Loop(p.batch, size, quantity.value, 0);
            && end.calls > 0
            && end.total == Total(p.batch, end.calls)
            && (end.total < want <==> Short(p.batch, want, size, end.calls - 1))
            && (WithinWanted(p.batch, want, size, end.calls) ==> end.total <= want)
            && ((forall i | 0 <= i < end.calls :: !Short(p.batch, want, size, i)) ==> end.total >= want)
  {
    LoopMeaning(p.batch, quantity.value, size);
    if WithinWanted(p.batch, quantity.value, size, Loop(p.batch, size, quantity.value, 0).calls) {
      LoopWithin(p.batch, quantity.value, size);
    }
  }

  /** What the remote steps hand to the database transaction. */
  datatype Made = Made(item: Id, campaign: Id, values: seq<CodeValue>, partial: bool)

  predicate InRange(quantity: Option<int>) {
    quantity.Some? && MIN_QTY <= quantity.value <= MAX_QTY
  }

  ghost predicate AllDone(p: Plan) {
    && p.bootstrap.Done? && p.campaign.Done? && p.item.Done? && p.link.Done? && p.txFails.None?
    && AllBatchesDone(p)
  }

  ghost predicate AllBatchesDone(p: Plan) {
    forall i: nat :: p.batch(i).outcome.Done?
  }

  /** Nobody else acts during the call. */
  ghost predicate AllIdle(p: Plan) {
    forall c :: p.before(c).Idle?
  }

  /** Nothing is left among the items, campaigns and code pools; the link table is not looked at. */
  predicate Cleared(own: Remote) {
    own.items == map[] && own.campaigns == {} && own.codes == map[]
  }

  /** The one item and campaign, with codes of that campaign only. */
  predicate PairOnly(own: Remote, item: Id, campaign: Id) {
    own.items == map[item := campaign] && own.campaigns == {campaign} && own.codes - {campaign} == map[]
  }

  /** One item and one campaign, linked, with exactly these codes, and nothing else. */
  predicate Provisioned(own: Remote, mine: set<Id>, m: Made, quantity: int) {
    && mine == {m.item, m.campaign}
    && PairOnly(own, m.item, m.campaign)
    && own.linked == map[m.campaign := m.item]
    && PoolOf(own, m.campaign) == m.values
    && !Repeated(m.values)
    && (m.partial <==> |m.values| < quantity)
  }

  predicate Repeated(values: seq<CodeValue>) {
    exists i, j | 0 <= i < j < |values| :: values[i] == values[j]
  }

  predicate SlugTaken(db: Local, slug: string) {
    exists q :: q in db.playtests && db.playtests[q].slug == slug
  }
}
