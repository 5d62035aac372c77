/** A map that remembers the order in which its keys were first inserted, like a JavaScript Map. */
module OrderedMap {
  datatype OMap<V> = OMap(order: seq<string>, at: map<string, V>)

  ghost predicate Valid<V>(m: OMap<V>) {
    && (forall k :: k in m.order <==> k in m.at)
    && (forall i, j :: 0 <= i < j < |m.order| ==> m.order[i] != m.order[j])
  }

  function Empty<V>(): OMap<V> { OMap([], map[]) }

  /** Overwriting a key keeps its place. */
  function Put<V>(m: OMap<V>, key: string, value: V): OMap<V> {
    OMap(if key in m.at then m.order else m.order + [key], m.at[key := value])
  }

  function Dropped(order: seq<string>, key: string): seq<string> {
    if order == [] then []
    else if order[0] == key then Dropped(order[1..], key)
    else [order[0]] + Dropped(order[1..], key)
  }

  function Remove<V>(m: OMap<V>, key: string): OMap<V> {
    OMap(Dropped(m.order, key), m.at - {key})
  }

  function Values<V>(m: OMap<V>): seq<V>
    requires Valid(m)
  {
    seq(|m.order|, i requires 0 <= i < |m.order| => m.at[m.order[i]])
  }

  lemma PutValid<V>(m: OMap<V>, key: string, value: V)
    requires Valid(m)
    ensures Valid(Put(m, key, value))
  {
  }

  lemma {:induction false} DroppedFacts(order: seq<string>, key: string)
    ensures forall k {:trigger k in Dropped(order, key)} :: k in Dropped(order, key) ==> k in order && k != key
    ensures forall k {:trigger k in order} :: k in order && k != key ==> k in Dropped(order, key)
    ensures (forall i, j :: 0 <= i < j < |order| ==> order[i] != order[j]) ==>
      forall i, j :: 0 <= i < j < |Dropped(order, key)| ==> Dropped(order, key)[i] != Dropped(order, key)[j]
  {
    if order != [] {
      assert order == [order[0]] + order[1..];
      DroppedFacts(order[1..], key);
      var d := Dropped(order[1..], key);
      if forall i, j :: 0 <= i < j < |order| ==> order[i] != order[j] {
        forall j | 0 <= j < |d| ensures d[j] != order[0] {
          assert d[j] in d;
          assert d[j] in order[1..];
        }
      }
    }
  }

  lemma RemoveValid<V>(m: OMap<V>, key: string)
    requires Valid(m)
    ensures Valid(Remove(m, key))
  {
    DroppedFacts(m.order, key);
  }

  lemma {:induction false} DroppedNothing(order: seq<string>, key: string)
    requires key !in order
    ensures Dropped(order, key) == order
  {
    if order != [] { DroppedNothing(order[1..], key); }
  }

  lemma {:induction false} DroppedAt(order: seq<string>, i: nat)
    requires i < |order| && order[i] !in order[..i] && order[i] !in order[i + 1..]
    ensures Dropped(order, order[i]) == order[..i] + order[i + 1..]
  {
    if i == 0 {
      DroppedNothing(order[1..], order[0]);
    } else {
      var rest := order[1..];
      assert rest[..i - 1] == order[..i][1..] && rest[i..] == order[i + 1..];
      assert order[0] in order[..i];
      DroppedAt(rest, i - 1);
    }
  }

  ghost predicate TakenOut(order: seq<string>, rest: seq<string>, key: string, i: nat) {
    i < |order| && order[i] == key && rest == order[..i] + order[i + 1..]
  }

  /** Removing a key takes its one place out of the order and leaves everything else. */
  lemma RemoveMeaning<V>(m: OMap<V>, key: string)
    requires Valid(m)
    ensures Remove(m, key).at == m.at - {key}
    ensures key !in m.at ==> Remove(m, key) == m
    ensures key in m.at ==> exists i :: 0 <= i < |m.order| && TakenOut(m.order, Remove(m, key).order, key, i)
  {
    if key in m.at {
      var i :| 0 <= i < |m.order| && m.order[i] == key;
      DroppedAt(m.order, i);
      assert TakenOut(m.order, Remove(m, key).order, key, i);
    } else {
      DroppedNothing(m.order, key);
    }
  }
}
