/**
  The in-memory entity store behind the world service: a dictionary from
  entity id to entity, updated by `Push`, read by `GetEntity` and
  `ListEntities`, and shrunk by `ExpireEntity`. The dictionary's iteration
  order (insertion order, an overwrite keeping its place) is kept as a
  separate sequence of ids, since `ListEntities` answers in that order.
 */
module EntityStore {
  import opened Wrappers
  import opened Strings
  import opened SeqStats

  /** An entity: its id, its label and the rest of its components, which the store never looks into. */
  datatype Entity = Entity(id: string, labelText: string, components: string)

  /** The id and label of a listing filter; an empty field does not constrain. */
  datatype Filter = Filter(id: string, labelText: string)

  /** The gRPC status a call leaves on its context. */
  datatype Status = Ok | NotFound

  /** What `Push` answers: the request is always accepted, and every id is reported in request order. */
  datatype PushReply = PushReply(accepted: bool, ids: seq<string>)

  /** `_matches_filter`: the id filter is equality, the label filter is substring containment. */
  predicate Matches(e: Entity, f: Filter): (b: bool)
    ensures b && f.labelText != [] ==> |f.labelText| <= |e.labelText|
  {
    && (f.id == [] || f.id == e.id)
    && (f.labelText == [] || Contains(e.labelText, f.labelText))
  }

  /**
    An empty filter lets everything through; an entity whose id passes the id
    filter (none, or the same id) and whose label contains the label filter
    anywhere is selected; a label filter that does not occur rejects; a
    different id always rejects.
   */
  lemma MatchesFacts(e: Entity, f: Filter)
    ensures f == Filter([], []) ==> Matches(e, f)
    ensures f.id == [] && Contains(e.labelText, f.labelText) ==> Matches(e, f)
    ensures (f.id == [] || f.id == e.id) && (f.labelText == [] || Contains(e.labelText, f.labelText)) ==> Matches(e, f)
    ensures f.labelText != [] && !Contains(e.labelText, f.labelText) ==> !Matches(e, f)
    ensures f.id != [] && f.id != e.id ==> !Matches(e, f)
  {
  }

  predicate Distinct(s: seq<string>) {
    forall i, j :: 0 <= i < j < |s| ==> s[i] != s[j]
  }

  /** The dictionary after storing each change in turn. */
  function PushAll(m: map<string, Entity>, changes: seq<Entity>): map<string, Entity>
    decreases |changes|
  {
    if |changes| == 0 then m
    else
      var last := changes[|changes| - 1];
      PushAll(m, changes[..|changes| - 1])[last.id := last]
  }

  /** The iteration order after storing each change in turn: a new id goes to the end, a known one keeps its place. */
  function PushOrder(order: seq<string>, changes: seq<Entity>): seq<string>
    decreases |changes|
  {
    if |changes| == 0 then order
    else
      var before := PushOrder(order, changes[..|changes| - 1]);
      var id := changes[|changes| - 1].id;
      if id in before then before else before + [id]
  }

  function Ids(changes: seq<Entity>): seq<string> {
    Map((e: Entity) => e.id, changes)
  }

  /** `i` is the last change of the request that carries id `k`. */
  predicate LastChange(changes: seq<Entity>, k: string, i: nat) {
    i < |changes| && changes[i].id == k && forall j :: i < j < |changes| ==> changes[j].id != k
  }

  /**
    After a push, an id of the request holds the last entity of the request
    with that id, and every other id keeps what it had (or stays absent).
   */
  lemma {:induction false} PushLastWins(m: map<string, Entity>, changes: seq<Entity>)
    ensures forall k: string, i: nat :: LastChange(changes, k, i) ==> k in PushAll(m, changes) && PushAll(m, changes)[k] == changes[i]
    ensures forall k :: (forall j :: 0 <= j < |changes| ==> changes[j].id != k) ==>
      (k in PushAll(m, changes) <==> k in m) && (k in m ==> PushAll(m, changes)[k] == m[k])
    decreases |changes|
  {
    if |changes| > 0 {
      var n := |changes| - 1;
      var init := changes[..n];
      PushLastWins(m, init);
      forall k: string, i: nat | LastChange(changes, k, i) ensures k in PushAll(m, changes) && PushAll(m, changes)[k] == changes[i] {
        if i < n {
          assert LastChange(init, k, i);
        }
      }
    }
  }

  /** Remove an id from the iteration order. */
  function RemoveKey(s: seq<string>, k: string): (r: seq<string>)
    ensures forall x :: x in r <==> x in s && x != k
    decreases |s|
  {
    if |s| == 0 then []
    else if s[0] == k then RemoveKey(s[1..], k)
    else [s[0]] + RemoveKey(s[1..], k)
  }

  /** Removing an id keeps the order free of repeats. */
  lemma {:induction false} RemoveKeyDistinct(s: seq<string>, k: string)
    requires Distinct(s)
    ensures Distinct(RemoveKey(s, k))
    decreases |s|
  {
    if |s| > 0 {
      var rest := s[1..];
      assert Distinct(rest) by {
        forall i, j | 0 <= i < j < |rest| ensures rest[i] != rest[j] {
          assert rest[i] == s[i + 1] && rest[j] == s[j + 1];
        }
      }
      RemoveKeyDistinct(rest, k);
      if s[0] != k {
        assert s[0] !in rest;
        var r := RemoveKey(s, k);
        forall i, j | 0 <= i < j < |r| ensures r[i] != r[j] {
          if i == 0 {
            assert r[j] in RemoveKey(rest, k);
          } else {
            assert r[i] == RemoveKey(rest, k)[i - 1] && r[j] == RemoveKey(rest, k)[j - 1];
          }
        }
      }
    }
  }

  /** The stored entity of an id, when it passes the filter. */
  function Pick(m: map<string, Entity>, f: Filter): string -> seq<Entity> {
    k => if k in m && Matches(m[k], f) then [m[k]] else []
  }

  /** The stored entities, in iteration order, that pass the filter. */
  function Listing(m: map<string, Entity>, order: seq<string>, f: Filter): seq<Entity> {
    FlatMap(Pick(m, f), order)
  }

  /** The listing holds exactly the stored entities that pass the filter. */
  lemma {:induction false} ListingSpec(m: map<string, Entity>, order: seq<string>, f: Filter)
    requires forall k :: k in m <==> k in order
    ensures forall e :: e in Listing(m, order, f) <==> (exists k :: k in m && m[k] == e) && Matches(e, f)
    ensures |Listing(m, order, f)| <= |order|
  {
    FlatMapAtMostOne(Pick(m, f), order);
    forall e | e in Listing(m, order, f) ensures (exists k :: k in m && m[k] == e) && Matches(e, f) {
      FlatMapFrom(Pick(m, f), order, e);
    }
    forall e | (exists k :: k in m && m[k] == e) && Matches(e, f) ensures e in Listing(m, order, f) {
      var k :| k in m && m[k] == e;
      FlatMapTo(Pick(m, f), order, k, e);
    }
  }

  /** With an empty filter, the listing is every stored entity in iteration order. */
  lemma {:induction false} ListingAll(m: map<string, Entity>, order: seq<string>)
    requires forall k :: k in order ==> k in m
    ensures |Listing(m, order, Filter([], []))| == |order|
    ensures forall i :: 0 <= i < |order| ==> Listing(m, order, Filter([], []))[i] == m[order[i]]
    decreases |order|
  {
    if |order| > 0 {
      var n := |order| - 1;
      var all := Filter([], []);
      var init := order[..n];
      assert forall k :: k in init ==> k in order;
      ListingAll(m, init);
      assert Pick(m, all)(order[n]) == [m[order[n]]] by {
        assert Matches(m[order[n]], all);
      }
      assert Listing(m, order, all) == Listing(m, init, all) + [m[order[n]]];
      forall i | 0 <= i < n ensures Listing(m, order, all)[i] == m[order[i]] {
        assert init[i] == order[i];
      }
    }
  }

  class Store {
    /** The `entities` dictionary. */
    var entities: map<string, Entity>
    /** Its iteration order. */
    var order: seq<string>

    ghost predicate Valid()
      reads this
    {
      && Distinct(order)
      && (forall k :: k in entities <==> k in order)
    }

    /** The store starts empty. */
    constructor()
      ensures Valid() && entities == map[] && order == []
    {
      entities := map[];
      order := [];
    }

    /** `entities[entity.id] = entity`. */
    method Put(e: Entity)
      requires Valid()
      modifies this
      ensures Valid()
      ensures entities == old(entities)[e.id := e]
      ensures order == if e.id in old(order) then old(order) else old(order) + [e.id]
    {
      if e.id !in order {
        order := order + [e.id];
      }
      entities := entities[e.id := e];
    }

    /** `Push`: store every change in request order and report every id. */
    method Push(changes: seq<Entity>) returns (reply: PushReply)
      requires Valid()
      modifies this
      ensures Valid()
      ensures entities == PushAll(old(entities), changes)
      ensures order == PushOrder(old(order), changes)
      ensures reply == PushReply(true, Ids(changes))
    {
      var accepted := [];
      for i := 0 to |changes|
        invariant Valid()
        invariant entities == PushAll(old(entities), changes[..i])
        invariant order == PushOrder(old(order), changes[..i])
        invariant accepted == Ids(changes[..i])
      {
        assert changes[..i + 1][..i] == changes[..i];
        Put(changes[i]);
        MapPrefix((e: Entity) => e.id, changes, i);
        accepted := accepted + [changes[i].id];
      }
      assert changes[..|changes|] == changes;
      reply := PushReply(true, accepted);
    }

    /** `GetEntity`: the stored entity, or `NOT_FOUND` and an empty reply; the store is not touched. */
    method GetEntity(id: string) returns (found: Option<Entity>, status: Status)
      requires Valid()
      ensures found.Some? <==> id in entities
      ensures found.Some? ==> found.value == entities[id] && status == Ok
      ensures found.None? ==> status == NotFound
    {
      if id in entities {
        found, status := Some(entities[id]), Ok;
      } else {
        found, status := None, NotFound;
      }
    }

    /** `ExpireEntity`: drop the id if present, otherwise answer `NOT_FOUND` and change nothing. */
    method ExpireEntity(id: string) returns (status: Status)
      requires Valid()
      modifies this
      ensures Valid()
      ensures status == Ok <==> id in old(entities)
      ensures entities == old(entities) - {id}
      ensures order == RemoveKey(old(order), id)
    {
      if id in entities {
        RemoveKeyDistinct(order, id);
        entities := entities - {id};
        order := RemoveKey(order, id);
        status := Ok;
      } else {
        RemoveAbsent(order, id);
        status := NotFound;
      }
    }

    /** `ListEntities`: the stored entities that pass the filter, in iteration order. */
    method ListEntities(f: Filter) returns (filtered: seq<Entity>)
      requires Valid()
      ensures filtered == Listing(entities, order, f)
    {
      filtered := [];
      for i := 0 to |order|
        invariant filtered == Listing(entities, order[..i], f)
      {
        FlatMapPrefix(Pick(entities, f), order, i);
        var k := order[i];
        if Matches(entities[k], f) {
          filtered := filtered + [entities[k]];
        }
      }
      assert order[..|order|] == order;
    }
  }

  /** Removing an id that is not there changes nothing, so a second expire has no further effect on the order. */
  lemma {:induction false} RemoveAbsent(s: seq<string>, k: string)
    requires k !in s
    ensures RemoveKey(s, k) == s
    decreases |s|
  {
    if |s| > 0 {
      assert k !in s[1..];
      RemoveAbsent(s[1..], k);
    }
  }

  /** Expiring twice is expiring once. */
  lemma ExpireIdempotent(m: map<string, Entity>, order: seq<string>, k: string)
    ensures m - {k} - {k} == m - {k}
    ensures RemoveKey(RemoveKey(order, k), k) == RemoveKey(order, k)
  {
    RemoveAbsent(RemoveKey(order, k), k);
  }
}
