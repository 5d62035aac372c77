/**
 The LRU cache as it is built: a map of entries, a map from keys to list nodes, and a doubly linked list
 threaded through the nodes, most recently used first. Every public method refines its `LruSpec` namesake.
 Each method takes the reading of the clock it would make.
 */
module LruCache {
  import opened Options
  import Spec = LruSpec

  class LruNode {
    const key: string
    var prev: LruNode?
    var next: LruNode?

    constructor (key: string)
      ensures this.key == key && prev == null && next == null
    {
      this.key, prev, next := key, null, null;
    }
  }

  function EntriesOf<V>(nodes: seq<LruNode>, store: map<string, Spec.Entry<V>>): seq<Spec.Entry<V>>
    requires forall n :: n in nodes ==> n.key in store
  {
    seq(|nodes|, i requires 0 <= i < |nodes| => store[nodes[i].key])
  }

  /** `index` maps exactly the keys of the list, each to its one node. */
  ghost predicate IsIndex(nodes: seq<LruNode>, index: map<string, LruNode>) {
    && (forall i :: 0 <= i < |nodes| ==> nodes[i].key in index && index[nodes[i].key] == nodes[i])
    && (forall k {:trigger index[k]} :: k in index ==> index[k].key == k && index[k] in nodes)
    && Distinct(nodes)
  }

  ghost predicate Distinct(nodes: seq<LruNode>) {
    forall i, j :: 0 <= i < j < |nodes| ==> nodes[i] != nodes[j]
  }

  function Unlinked(nodes: seq<LruNode>, at: nat): seq<LruNode>
    requires at < |nodes|
  {
    nodes[..at] + nodes[at + 1..]
  }

  lemma UnlinkedFacts(nodes: seq<LruNode>, at: nat)
    requires Distinct(nodes) && at < |nodes|
    ensures Distinct(Unlinked(nodes, at)) && nodes[at] !in Unlinked(nodes, at)
    ensures forall n :: n in Unlinked(nodes, at) ==> n in nodes
  {
    var rest := Unlinked(nodes, at);
    assert forall i :: 0 <= i < |rest| ==> rest[i] == if i < at then nodes[i] else nodes[i + 1];
  }

  lemma IndexPush(nodes: seq<LruNode>, index: map<string, LruNode>, node: LruNode)
    requires IsIndex(nodes, index) && node.key !in index
    ensures IsIndex([node] + nodes, index[node.key := node])
  {
    assert forall k :: k in index ==> index[k] in [node] + nodes;
  }

  lemma IndexUnlink(nodes: seq<LruNode>, index: map<string, LruNode>, at: nat)
    requires IsIndex(nodes, index) && at < |nodes|
    ensures IsIndex(Unlinked(nodes, at), index - {nodes[at].key})
  {
    var rest := Unlinked(nodes, at);
    forall i | 0 <= i < |rest| ensures rest[i].key != nodes[at].key {
      assert rest[i] == if i < at then nodes[i] else nodes[i + 1];
    }
    forall k | k in index && k != nodes[at].key ensures index[k] in rest {
      var i :| 0 <= i < |nodes| && nodes[i] == index[k];
      assert i != at;
      assert nodes[i] == if i < at then rest[i] else rest[i - 1];
    }
  }

  lemma IndexPromote(nodes: seq<LruNode>, index: map<string, LruNode>, at: nat)
    requires IsIndex(nodes, index) && at < |nodes|
    ensures IsIndex([nodes[at]] + Unlinked(nodes, at), index)
  {
    IndexUnlink(nodes, index, at);
    IndexPush(Unlinked(nodes, at), index - {nodes[at].key}, nodes[at]);
    assert (index - {nodes[at].key})[nodes[at].key := nodes[at]] == index;
  }

  // ---------- the entries a list and a store stand for ----------

  ghost predicate Consistent<V>(nodes: seq<LruNode>, index: map<string, LruNode>, store: map<string, Spec.Entry<V>>) {
    IsIndex(nodes, index) && store.Keys == index.Keys && forall k :: k in store ==> store[k].key == k
  }

  lemma {:induction false} IndexSize(nodes: seq<LruNode>, index: map<string, LruNode>)
    requires IsIndex(nodes, index)
    ensures |index| == |nodes|
  {
    if nodes == [] {
      assert index == map[];
    } else {
      IndexUnlink(nodes, index, 0);
      IndexSize(Unlinked(nodes, 0), index - {nodes[0].key});
      assert index.Keys == (index - {nodes[0].key}).Keys + {nodes[0].key};
    }
  }

  lemma EntriesEmpty<V>()
    ensures Consistent<V>([], map[], map[]) && EntriesOf<V>([], map[]) == []
  {
  }

  lemma EntriesLookup<V>(
    nodes: seq<LruNode>, index: map<string, LruNode>, store: map<string, Spec.Entry<V>>, key: string)
    requires Consistent(nodes, index, store)
    ensures var s := EntriesOf(nodes, store);
      Spec.Distinct(s) && Spec.Lookup(s, key) == if key in store then Some(store[key]) else None
  {
    var s := EntriesOf(nodes, store);
    Spec.LookupFacts(s, key);
    if key in store {
      var i :| 0 <= i < |nodes| && nodes[i] == index[key];
      assert s[i] == store[key];
    }
  }

  /** Taking the node of a key out of the list takes the key's entry out of the entries. */
  lemma EntriesUnlink<V>(
    nodes: seq<LruNode>, index: map<string, LruNode>, store: map<string, Spec.Entry<V>>, at: nat)
    requires Consistent(nodes, index, store) && at < |nodes|
    ensures var key, rest := nodes[at].key, Unlinked(nodes, at);
      && Consistent(rest, index - {key}, store - {key}) && (forall n :: n in rest ==> n in nodes)
      && EntriesOf(rest, store - {key}) == Spec.Without(EntriesOf(nodes, store), key)
  {
    var s := EntriesOf(nodes, store);
    EntriesLookup(nodes, index, store, nodes[at].key);
    Spec.WithoutAt(s, at);
    IndexUnlink(nodes, index, at);
    var rest := Unlinked(nodes, at);
    forall n | n in rest ensures n in nodes {
      var i :| 0 <= i < |rest| && rest[i] == n;
    }
    assert EntriesOf(rest, store - {nodes[at].key}) == s[..at] + s[at + 1..];
  }

  lemma EntriesPush<V>(
    nodes: seq<LruNode>, index: map<string, LruNode>, store: map<string, Spec.Entry<V>>, node: LruNode,
    entry: Spec.Entry<V>)
    requires Consistent(nodes, index, store) && node.key == entry.key && entry.key !in index
    ensures var all, index', store' := [node] + nodes, index[node.key := node], store[node.key := entry];
      && Consistent(all, index', store') && EntriesOf(all, store') == [entry] + EntriesOf(nodes, store)
  {
    IndexPush(nodes, index, node);
  }

  lemma NodeAt(nodes: seq<LruNode>, index: map<string, LruNode>, key: string) returns (at: nat)
    requires IsIndex(nodes, index) && key in index
    ensures at < |nodes| && nodes[at] == index[key] && nodes[at].key == key && Distinct(nodes)
  {
    at :| 0 <= at < |nodes| && nodes[at] == index[key];
  }

  /** What taking a key out of the list and the store, if it is there, does to the entries. */
  lemma EntriesForget<V>(
    nodes: seq<LruNode>, index: map<string, LruNode>, store: map<string, Spec.Entry<V>>, key: string, at: nat,
    rest: seq<LruNode>)
    requires Consistent(nodes, index, store)
    requires if key in index then at < |nodes| && nodes[at].key == key && rest == Unlinked(nodes, at) else rest == nodes
    ensures Consistent(rest, index - {key}, store - {key}) && (forall n :: n in rest ==> n in nodes)
        && |rest| <= |nodes|
    ensures EntriesOf(rest, store - {key}) == Spec.Without(EntriesOf(nodes, store), key)
  {
    if key in index {
      EntriesUnlink(nodes, index, store, at);
    } else {
      EntriesLookup(nodes, index, store, key);
      Spec.WithoutFacts(EntriesOf(nodes, store), key);
      assert store - {key} == store && index - {key} == index;
    }
  }

  /** Dropping the key of the last node drops the last entry. */
  lemma EntriesWithoutLast<V>(nodes: seq<LruNode>, index: map<string, LruNode>, store: map<string, Spec.Entry<V>>)
    requires Consistent(nodes, index, store) && nodes != []
    ensures var s, key := EntriesOf(nodes, store), nodes[|nodes| - 1].key;
      s != [] && key in store && Spec.Without(s, key) == s[..|s| - 1]
  {
    var s := EntriesOf(nodes, store);
    EntriesLookup(nodes, index, store, nodes[|nodes| - 1].key);
    Spec.WithoutAt(s, |s| - 1);
  }

  /** Moving a node to the front and giving its key a new entry, seen as a removal and an insertion. */
  lemma EntriesTouch<V>(
    nodes: seq<LruNode>, index: map<string, LruNode>, store: map<string, Spec.Entry<V>>, at: nat,
    entry: Spec.Entry<V>)
    requires Consistent(nodes, index, store) && at < |nodes| && nodes[at].key == entry.key
    ensures var all, store' := [nodes[at]] + Unlinked(nodes, at), store[entry.key := entry];
      && Consistent(all, index, store') && (forall n :: n in all ==> n in nodes)
      && EntriesOf(all, store') == [entry] + Spec.Without(EntriesOf(nodes, store), entry.key)
  {
    var key := entry.key;
    EntriesUnlink(nodes, index, store, at);
    EntriesPush(Unlinked(nodes, at), index - {key}, store - {key}, nodes[at], entry);
    assert (index - {key})[key := nodes[at]] == index;
    assert (store - {key})[key := entry] == store[key := entry];
  }

  /** The keys of expired entries among those already seen. */
  ghost function ExpiredSeen<V>(store: map<string, Spec.Entry<V>>, unseen: set<string>, now: int): set<string> {
    set k | k in store && k !in unseen && Spec.Expired(store[k], now)
  }

  lemma NoneExpired<V>(
    nodes: seq<LruNode>, index: map<string, LruNode>, store: map<string, Spec.Entry<V>>, now: int)
    requires Consistent(nodes, index, store)
    requires ExpiredSeen(store, {}, now) == {}
    ensures forall e :: e in EntriesOf(nodes, store) ==> !Spec.Expired(e, now)
  {
    var s := EntriesOf(nodes, store);
    forall e | e in s ensures !Spec.Expired(e, now) {
      var i :| 0 <= i < |s| && s[i] == e;
      var k := nodes[i].key;
      assert k in store && store[k] == e;
      assert k !in ExpiredSeen(store, {}, now);
    }
  }

  class LruCacheBackend<V> {
    var store: map<string, Spec.Entry<V>>
    var accessOrder: map<string, LruNode>
    var head: LruNode?
    var tail: LruNode?
    const config: Spec.Config
    var hits: nat
    var misses: nat
    var evictions: nat
    ghost var nodes: seq<LruNode>  // the list from head to tail
    ghost var Repr: set<object>

    /** `nodes` is the doubly linked list that starts at `head` and ends at `tail`. */
    ghost predicate Chain()
      reads `head, `tail, `nodes, nodes
    {
      && (head == if nodes == [] then null else nodes[0])
      && (tail == if nodes == [] then null else nodes[|nodes| - 1])
      && (forall i {:trigger nodes[i].prev} :: 0 <= i < |nodes| ==>
           nodes[i].prev == if i == 0 then null else nodes[i - 1])
      && (forall i {:trigger nodes[i].next} ::
        0 <= i < |nodes| ==> nodes[i].next == if i == |nodes| - 1 then null else nodes[i + 1])
    }

    ghost predicate Indexed()
      reads `nodes, `accessOrder
    {
      IsIndex(nodes, accessOrder)
    }

    ghost predicate Valid()
      reads this, Repr
      ensures Valid() ==> this in Repr
    {
      && this in Repr && (forall n :: n in nodes ==> n in Repr)
      && Chain() && Consistent(nodes, accessOrder, store)
      && |nodes| <= config.Capacity()
    }

    /** The abstract cache this object stands for. */
    ghost function View(): Spec.Cache<V>
      requires Valid()
      reads this, Repr
    {
      Spec.Cache(EntriesOf(nodes, store), hits, misses, evictions)
    }

    constructor (maxSize: Option<int>, defaultTtl: Option<int>)
      ensures Valid() && fresh(Repr) && View() == Spec.Empty()
      ensures config.defaultTtl == defaultTtl
      ensures config.maxSize == if maxSize.Some? && maxSize.value != 0 then maxSize.value else 1000
    {
      config := Spec.Config(if maxSize.Some? && maxSize.value != 0 then maxSize.value else 1000, defaultTtl);
      store, accessOrder, head, tail := map[], map[], null, null;
      hits, misses, evictions := 0, 0, 0;
      nodes := [];
      Repr := {this};
    }

    // ---------- link surgery ----------

    method PushNode(node: LruNode)
      requires Chain() && Distinct(nodes) && node !in nodes && node.prev == null && node.next == null
      modifies `head, `tail, `nodes, nodes, node
      ensures Chain() && nodes == [node] + old(nodes)
    {
      if head == null {
        head := node;
        tail := node;
      } else {
        node.next := head;
        head.prev := node;
        head := node;
      }
      nodes := [node] + nodes;
      assert forall i :: 0 < i < |nodes| ==> nodes[i] == old(nodes)[i - 1];
    }

    /** The neighbours of the node, or the ends of the list, skip it. */
    method Splice(node: LruNode, ghost at: nat)
      requires Chain() && Distinct(nodes) && at < |nodes| && nodes[at] == node
      modifies `head, `tail, `nodes, nodes
      ensures Chain() && nodes == Unlinked(old(nodes), at)
    {
      ghost var ns := nodes;
      if node.prev != null {
        node.prev.next := node.next;
      } else {
        head := node.next;
      }
      if node.next != null {
        node.next.prev := node.prev;
      } else {
        tail := node.prev;
      }
      nodes := Unlinked(ns, at);
      assert forall j {:trigger ns[j].prev} :: 0 <= j < |ns| && j != at + 1 ==> ns[j].prev == old(ns[j].prev);
      assert forall j {:trigger ns[j].next} :: 0 <= j < |ns| && j != at - 1 ==> ns[j].next == old(ns[j].next);
      forall i | 0 <= i < |nodes|
        ensures nodes[i].prev == if i == 0 then null else nodes[i - 1]
        ensures nodes[i].next == if i == |nodes| - 1 then null else nodes[i + 1]
      {
        var j := if i < at then i else i + 1;
        assert nodes[i] == ns[j];
      }
    }

    /** The same for a node that is not the head, as a promotion starts. */
    method Detach(node: LruNode, ghost at: nat)
      requires Chain() && Distinct(nodes) && 0 < at < |nodes| && nodes[at] == node
      modifies `tail, `nodes, nodes
      ensures Chain() && nodes == Unlinked(old(nodes), at)
    {
      ghost var ns := nodes;
      assert node.prev == ns[at - 1];
      if node.prev != null {
        node.prev.next := node.next;
      }
      if node.next != null {
        node.next.prev := node.prev;
      }
      if node == tail {
        tail := node.prev;
      }
      nodes := Unlinked(ns, at);
      assert forall j {:trigger ns[j].prev} :: 0 <= j < |ns| && j != at + 1 ==> ns[j].prev == old(ns[j].prev);
      assert forall j {:trigger ns[j].next} :: 0 <= j < |ns| && j != at - 1 ==> ns[j].next == old(ns[j].next);
      forall i | 0 <= i < |nodes|
        ensures nodes[i].prev == if i == 0 then null else nodes[i - 1]
        ensures nodes[i].next == if i == |nodes| - 1 then null else nodes[i + 1]
      {
        var j := if i < at then i else i + 1;
        assert nodes[i] == ns[j];
      }
    }

    /** A node outside the list becomes its head, as a promotion ends. */
    method Attach(node: LruNode)
      requires Chain() && Distinct(nodes) && node !in nodes && nodes != []
      modifies `head, `nodes, nodes, node
      ensures Chain() && nodes == [node] + old(nodes)
    {
      node.prev := null;
      node.next := head;
      if head != null {
        head.prev := node;
      }
      head := node;
      nodes := [node] + nodes;
      assert forall i :: 0 < i < |nodes| ==> nodes[i] == old(nodes)[i - 1];
    }

    method PromoteNode(node: LruNode, ghost at: nat)
      requires Chain() && Distinct(nodes) && 0 < at < |nodes| && nodes[at] == node
      modifies `head, `tail, `nodes, nodes
      ensures Chain() && nodes == [node] + Unlinked(old(nodes), at)
    {
      hide Chain;
      UnlinkedFacts(nodes, at);
      Detach(node, at);
      Attach(node);
    }

    lemma HeadFirst()
      requires Chain() && nodes != []
      ensures head == nodes[0]
    {
    }

    // ---------- the list by key ----------

    method AddToFront(key: string)
      requires Chain() && Indexed() && key !in accessOrder
      modifies `head, `tail, `accessOrder, `nodes, nodes
      ensures Chain() && Indexed()
      ensures |nodes| == |old(nodes)| + 1 && nodes[1..] == old(nodes) && nodes[0].key == key && fresh(nodes[0])
      ensures accessOrder == old(accessOrder)[key := nodes[0]]
    {
      hide Chain;
      var node := new LruNode(key);
      IndexPush(nodes, accessOrder, node);
      accessOrder := accessOrder[key := node];
      PushNode(node);
    }

    method MoveToFront(key: string) returns (ghost at: nat)
      requires Chain() && Indexed()
      modifies `head, `tail, `nodes, nodes
      ensures Chain() && Indexed()
      ensures key !in accessOrder ==> nodes == old(nodes)
      ensures key in accessOrder ==>
        && at < |old(nodes)| && old(nodes)[at].key == key
        && nodes == [old(nodes)[at]] + Unlinked(old(nodes), at)
    {
      hide Chain;
      at := 0;
      if key !in accessOrder {
        return;
      }
      var node := accessOrder[key];
      at := NodeAt(nodes, accessOrder, key);
      IndexPromote(nodes, accessOrder, at);
      hide IsIndex;
      HeadFirst();
      if node == head {
        assert at == 0;
        assert nodes == [node] + Unlinked(nodes, 0);
        return;
      }
      PromoteNode(node, at);
    }

    method RemoveFromAccessOrder(key: string) returns (ghost at: nat)
      requires Chain() && Indexed()
      modifies `head, `tail, `accessOrder, `nodes, nodes
      ensures Chain() && Indexed()
      ensures accessOrder == old(accessOrder) - {key}
      ensures key !in old(accessOrder) ==> nodes == old(nodes)
      ensures key in old(accessOrder) ==>
        && at < |old(nodes)| && old(nodes)[at].key == key
        && nodes == Unlinked(old(nodes), at)
    {
      hide Chain;
      at := 0;
      if key !in accessOrder {
        return;
      }
      var node := accessOrder[key];
      at := NodeAt(nodes, accessOrder, key);
      IndexUnlink(nodes, accessOrder, at);
      hide IsIndex;
      Splice(node, at);
      accessOrder := accessOrder - {key};
    }

    // ---------- one entry ----------

    /** Delete the key from `store` and from the list. */
    method Forget(key: string)
      requires Valid()
      modifies Repr
      ensures Valid() && Repr == old(Repr)
      ensures View() == old(View()).(entries := Spec.Without(old(View()).entries, key))
      ensures store == old(store) - {key}
    {
      hide Chain, IsIndex, EntriesOf, Spec.Without;
      ghost var ns, st, index := nodes, store, accessOrder;
      store := store - {key};
      ghost var at := RemoveFromAccessOrder(key);
      EntriesForget(ns, index, st, key, at, nodes);
    }

    /** Give the key of an entry that is there a new entry and make it the most recently used. */
    method Touch(key: string, entry: Spec.Entry<V>)
      requires Valid() && key in store && entry.key == key
      modifies Repr
      ensures Valid() && Repr == old(Repr)
      ensures View() == old(View()).(entries := [entry] + Spec.Without(old(View()).entries, key))
    {
      hide Chain, IsIndex;
      ghost var ns, st := nodes, store;
      store := store[key := entry];
      ghost var at := MoveToFront(key);
      EntriesTouch(ns, accessOrder, st, at, entry);
    }

    /** Give a new key an entry in front of all others. */
    method Insert(key: string, entry: Spec.Entry<V>)
      requires Valid() && key !in store && entry.key == key && |nodes| < config.Capacity()
      modifies Repr
      ensures Valid() && fresh(Repr - old(Repr))
      ensures View() == old(View()).(entries := [entry] + old(View()).entries)
    {
      hide Chain, IsIndex;
      ghost var ns, st, index := nodes, store, accessOrder;
      store := store[key := entry];
      AddToFront(key);
      Repr := Repr + {nodes[0]};
      EntriesPush(ns, index, st, nodes[0], entry);
      assert nodes == [nodes[0]] + ns;
    }

    // ---------- the cache ----------

    method Get(key: string, now: int) returns (value: Option<V>)
      requires Valid()
      modifies Repr
      ensures Valid() && Repr == old(Repr)
      ensures (View(), value) == Spec.Get(old(View()), key, now)
    {
      hide Chain, IsIndex, EntriesOf, Spec.Without, Spec.Lookup;
      EntriesLookup(nodes, accessOrder, store, key);
      if key !in store {
        misses := misses + 1;
        return None;
      }
      var entry := store[key];
      if Spec.Expired(entry, now) {
        Forget(key);
        misses := misses + 1;
        return None;
      }
      Touch(key, entry.(accessedAt := now, accessCount := entry.accessCount + 1));
      hits := hits + 1;
      value := Some(entry.value);
    }

    method EvictLru()
      requires Valid()
      modifies Repr
      ensures Valid() && Repr == old(Repr)
      ensures View() == Spec.EvictLru(old(View()))
      ensures |nodes| == if old(nodes) == [] then 0 else |old(nodes)| - 1
      ensures store.Keys <= old(store.Keys)
    {
      hide IsIndex, Spec.Without;
      if tail == null {
        return;
      }
      var key := tail.key;
      EntriesWithoutLast(nodes, accessOrder, store);
      hide Chain;
      Forget(key);
      evictions := evictions + 1;
    }

    method Set(key: string, value: V, ttl: Option<int>, now: int)
      requires Valid()
      modifies Repr
      ensures Valid() && fresh(Repr - old(Repr))
      ensures View() == Spec.Set(config, old(View()), key, value, ttl, now)
    {
      EntriesLookup(nodes, accessOrder, store, key);
      IndexSize(nodes, accessOrder);
      assert |store| == |nodes| by { assert |store.Keys| == |accessOrder.Keys|; }
      hide Chain, IsIndex, Consistent, Spec.Lookup, Spec.Without;
      var expiresAt := Spec.ExpiryFor(config, ttl, now);
      if key in store {
        var entry := store[key];
        var used := entry.accessCount + 1;
        Touch(key, entry.(value := value, accessedAt := now, accessCount := used, expiresAt := expiresAt));
        return;
      }
      if |store| >= config.maxSize {
        EvictLru();
      }
      Insert(key, Spec.Entry(key, value, expiresAt, now, now, 1));
    }

    method Delete(key: string) returns (existed: bool)
      requires Valid()
      modifies Repr
      ensures Valid() && Repr == old(Repr)
      ensures (View(), existed) == Spec.Delete(old(View()), key)
    {
      hide Chain, IsIndex, EntriesOf, Spec.Without, Spec.Lookup;
      EntriesLookup(nodes, accessOrder, store, key);
      existed := key in store;
      Forget(key);
    }

    method Has(key: string, now: int) returns (present: bool)
      requires Valid()
      modifies Repr
      ensures Valid() && Repr == old(Repr)
      ensures (View(), present) == Spec.Has(old(View()), key, now)
    {
      hide Chain, IsIndex, EntriesOf, Spec.Without, Spec.Lookup;
      EntriesLookup(nodes, accessOrder, store, key);
      if key !in store {
        return false;
      }
      if Spec.Expired(store[key], now) {
        Forget(key);
        return false;
      }
      return true;
    }

    /** Both loops of the source visit keys in some order; any order gives this result. */
    method CleanExpired(now: int)
      requires Valid()
      modifies Repr
      ensures Valid() && Repr == old(Repr)
      ensures View() == Spec.CleanExpired(old(View()), now)
    {
      hide Chain, IsIndex, EntriesOf, Spec.Without, Spec.Lookup;
      var unseen, keysToDelete := store.Keys, {};
      while unseen != {}
        invariant unseen <= store.Keys && Valid() && Repr == old(Repr) && View() == old(View())
        invariant keysToDelete == ExpiredSeen(store, unseen, now)
        decreases unseen
      {
        var key :| key in unseen;
        if Spec.Expired(store[key], now) {
          keysToDelete := keysToDelete + {key};
        }
        unseen := unseen - {key};
      }
      while keysToDelete != {}
        invariant Valid() && Repr == old(Repr)
        invariant keysToDelete == ExpiredSeen(store, {}, now)
        invariant Spec.CleanExpired(View(), now) == Spec.CleanExpired(old(View()), now)
        decreases keysToDelete
      {
        var key :| key in keysToDelete;
        EntriesLookup(nodes, accessOrder, store, key);
        Spec.AliveForgets(View().entries, key, now);
        Forget(key);
        keysToDelete := keysToDelete - {key};
      }
      NoneExpired(nodes, accessOrder, store, now);
      Spec.AliveAll(View().entries, now);
    }

    method Clear()
      requires Valid()
      modifies Repr
      ensures Valid() && Repr == old(Repr)
      ensures View() == Spec.Empty()
    {
      hide IsIndex;
      store, accessOrder, head, tail := map[], map[], null, null;
      hits, misses, evictions := 0, 0, 0;
      nodes := [];
      EntriesEmpty<V>();
    }
  }
}
