/** The LRU cache with a forward and a reverse index over one linked list. */
module LruCache {
  import opened Bytes

  type Id = nat   // a list element: its identity outlives its removal from the list

  datatype Elem<K, V> = Elem(key: K, value: V)

  /** list holds the live elements, most recent first; content is what each element holds, live or not. */
  datatype Cache<K, V> = Cache(capacity: nat, list: seq<Id>, content: map<Id, Elem<K, V>>,
                               byKey: map<K, Id>, byValue: map<V, Id>, next: Id)

  /** list.MoveToFront: no effect on an element that is no longer in the list. */
  function ToFront(list: seq<Id>, e: Id): seq<Id> {
    if e in list then [e] + Without(list, e) else list
  }

  function Without<T(==,!new)>(s: seq<T>, x: T): (r: seq<T>)
    ensures forall y :: y in r <==> y in s && y != x
    ensures |r| <= |s|
  {
    if s == [] then [] else if s[0] == x then Without(s[1..], x) else [s[0]] + Without(s[1..], x)
  }

  function Got<K(==), V>(c: Cache<K, V>, k: K): Cache<K, V> {
    if k in c.byKey then c.(list := ToFront(c.list, c.byKey[k])) else c
  }

  function GotByValue<K, V(==)>(c: Cache<K, V>, v: V): Cache<K, V> {
    if v in c.byValue then c.(list := ToFront(c.list, c.byValue[v])) else c
  }

  function Pushed<K(==), V(==)>(c: Cache<K, V>, k: K, v: V): Cache<K, V> {
    c.(list := [c.next] + c.list, content := c.content[c.next := Elem(k, v)],
       byKey := c.byKey[k := c.next], byValue := c.byValue[v := c.next], next := c.next + 1)
  }

  /** Removes the back of the list and what the two indexes say about its content. */
  function Evicted<K(==), V(==)>(c: Cache<K, V>): Cache<K, V>
    requires c.list != [] && c.list[|c.list| - 1] in c.content
  {
    var e := c.content[c.list[|c.list| - 1]];
    c.(list := c.list[..|c.list| - 1], byKey := c.byKey - {e.key}, byValue := c.byValue - {e.value})
  }

  ghost predicate Distinct<T>(s: seq<T>) {
    forall i, j :: 0 <= i < j < |s| ==> s[i] != s[j]
  }

  /** What holds in every run: the key index and the list hold the same elements under their keys. */
  ghost predicate Inv<K, V>(c: Cache<K, V>) {
    |c.list| <= c.capacity && Indexed(c)
  }

  ghost predicate Indexed<K, V>(c: Cache<K, V>) {
    && Distinct(c.list)
    && (forall e :: e in c.content ==> e < c.next)
    && (forall e :: e in c.list ==> e in c.content)
    && (forall e :: e in c.list ==> c.content[e].key in c.byKey && c.byKey[c.content[e].key] == e)
    && (forall k :: k in c.byKey ==> c.byKey[k] in c.list && c.content[c.byKey[k]].key == k)
    && (forall v :: v in c.byValue ==> c.byValue[v] in c.content)
  }

  function AfterPut<K(==), V(==)>(c: Cache<K, V>, k: K, v: V): Cache<K, V>
    requires Inv(c)
  {
    if k in c.byKey then c.(content := c.content[c.byKey[k] := Elem(k, v)], list := ToFront(c.list, c.byKey[k]))
    else
      var p := Pushed(c, k, v);
      if |p.list| > p.capacity then Evicted(p) else p
  }

  lemma DistinctCons<T>(x: T, s: seq<T>)
    requires x !in s && Distinct(s)
    ensures Distinct([x] + s)
  {
  }

  lemma DistinctEnds<T>(s: seq<T>)
    requires s != [] && Distinct(s)
    ensures Distinct(s[1..]) && s[0] !in s[1..]
    ensures Distinct(s[..|s| - 1]) && s[|s| - 1] !in s[..|s| - 1]
  {
  }

  lemma {:induction false} WithoutDistinct<T(!new)>(s: seq<T>, x: T)
    requires Distinct(s)
    ensures Distinct(Without(s, x)) && |Without(s, x)| == |s| - if x in s then 1 else 0
  {
    if s != [] {
      DistinctEnds(s);
      WithoutDistinct(s[1..], x);
      if s[0] == x {
        WithoutAbsent(s[1..], x);
      } else {
        DistinctCons(s[0], Without(s[1..], x));
      }
    }
  }

  lemma {:induction false} WithoutAbsent<T(!new)>(s: seq<T>, x: T)
    requires x !in s
    ensures Without(s, x) == s
  {
    if s != [] {
      WithoutAbsent(s[1..], x);
    }
  }

  lemma ToFrontKeeps(list: seq<Id>, e: Id)
    requires Distinct(list)
    ensures Distinct(ToFront(list, e)) && |ToFront(list, e)| == |list|
    ensures forall x :: x in ToFront(list, e) <==> x in list
  {
    WithoutDistinct(list, e);
  }

  function NewCache<K, V>(capacity: nat): Cache<K, V> {
    Cache(capacity, [], map[], map[], map[], 0)
  }

  /** Get(k) would return v. */
  ghost predicate Holds<K, V>(c: Cache<K, V>, k: K, v: V) {
    k in c.byKey && c.byKey[k] in c.content && c.content[c.byKey[k]].value == v
  }

  lemma InvEmpty<K, V>(capacity: nat)
    ensures Inv<K, V>(NewCache(capacity))
  {
  }

  lemma PushedIndexed<K, V>(c: Cache<K, V>, k: K, v: V)
    requires Indexed(c) && k !in c.byKey
    ensures Indexed(Pushed(c, k, v)) && Pushed(c, k, v).list[0] == c.next
  {
    DistinctCons(c.next, c.list);
  }

  lemma EvictedIndexed<K, V>(c: Cache<K, V>)
    requires Indexed(c) && c.list != []
    ensures Indexed(Evicted(c))
    ensures forall e :: e in c.list <==> e in Evicted(c).list || e == c.list[|c.list| - 1]
  {
    var n := |c.list| - 1;
    DistinctEnds(c.list);
    assert c.list == c.list[..n] + [c.list[n]];
  }

  /** Every operation keeps the invariant. */
  lemma InvPut<K, V>(c: Cache<K, V>, k: K, v: V)
    requires Inv(c)
    ensures Inv(AfterPut(c, k, v))
  {
    if k in c.byKey {
      ToFrontKeeps(c.list, c.byKey[k]);
    } else {
      hide Indexed, Distinct;
      var p := Pushed(c, k, v);
      PushedIndexed(c, k, v);
      if |p.list| > p.capacity {
        EvictedIndexed(p);
      }
    }
  }

  lemma InvGet<K, V>(c: Cache<K, V>, k: K)
    requires Inv(c)
    ensures Inv(Got(c, k))
  {
    if k in c.byKey {
      ToFrontKeeps(c.list, c.byKey[k]);
    }
  }

  lemma InvGetByValue<K, V>(c: Cache<K, V>, v: V)
    requires Inv(c)
    ensures Inv(GotByValue(c, v))
  {
    if v in c.byValue {
      ToFrontKeeps(c.list, c.byValue[v]);
    }
  }

  lemma BackHeld<K, V>(c: Cache<K, V>, k: K, v: V)
    requires Inv(c) && k !in c.byKey
    ensures var p := Pushed(c, k, v); p.list[|p.list| - 1] in p.content
  {
  }

  // ---------------------------------------------------------------- the code

  class Lru<K(==), V(==)> {
    const capacity: nat
    var list: seq<Id>
    var content: map<Id, Elem<K, V>>
    var keyToElement: map<K, Id>
    var valueToElement: map<V, Id>
    var next: Id

    function State(): Cache<K, V>
      reads this
    {
      Cache(capacity, list, content, keyToElement, valueToElement, next)
    }

    constructor (capacity: nat)
      ensures State() == NewCache(capacity)
    {
      this.capacity, list, content, keyToElement, valueToElement, next := capacity, [], map[], map[], map[], 0;
    }

    method Get(key: K) returns (value: Option<V>)
      requires Inv(State())
      modifies this
      ensures Inv(State()) && State() == Got(old(State()), key)
      ensures value == if key in keyToElement then Some(content[keyToElement[key]].value) else None
    {
      if key in keyToElement {
        var element := keyToElement[key];
        ToFrontKeeps(list, element);
        list := ToFront(list, element);
        return Some(content[element].value);
      }
      return None;
    }

    method GetKeyFromValue(value: V) returns (key: Option<K>)
      requires Inv(State())
      modifies this
      ensures Inv(State()) && State() == GotByValue(old(State()), value)
      ensures key == if value in valueToElement then Some(content[valueToElement[value]].key) else None
    {
      if value in valueToElement {
        var element := valueToElement[value];
        ToFrontKeeps(list, element);
        list := ToFront(list, element);
        return Some(content[element].key);
      }
      return None;
    }

    method PeekKeyFromValue(value: V) returns (key: Option<K>)
      requires Inv(State())
      ensures ExactInverse(State()) ==> forall k :: key == Some(k) <==> Holds(State(), k, value)
      ensures key == if value in valueToElement then Some(content[valueToElement[value]].key) else None
    {
      ValueIndexMeans(State(), value);
      return if value in valueToElement then Some(content[valueToElement[value]].key) else None;
    }

    method Put(key: K, value: V)
      requires Inv(State())
      modifies this
      ensures Inv(State()) && State() == AfterPut(old(State()), key, value)
    {
      hide Distinct, Indexed, ToFront;
      InvPut(State(), key, value);
      if key in keyToElement {
        var element := keyToElement[key];
        content := content[element := Elem(key, value)];
        list := ToFront(list, element);
      } else {
        var element := next;
        BackHeld(State(), key, value);
        next := next + 1;
        content := content[element := Elem(key, value)];
        list := [element] + list;
        keyToElement := keyToElement[key := element];
        valueToElement := valueToElement[value := element];
        if |list| > capacity {
          var e := content[list[|list| - 1]];
          list := list[..|list| - 1];
          keyToElement := keyToElement - {e.key};
          valueToElement := valueToElement - {e.value};
        }
      }
    }
  }

  // ---------------------------------------------------------------- order of last touch

  ghost function KeysOf<K, V>(content: map<Id, Elem<K, V>>, list: seq<Id>): (keys: seq<K>)
    requires forall e :: e in list ==> e in content
    ensures |keys| == |list|
  {
    if list == [] then [] else [content[list[0]].key] + KeysOf(content, list[1..])
  }

  /** The live keys, most recent first. */
  ghost function Keys<K, V>(c: Cache<K, V>): seq<K>
    requires forall e :: e in c.list ==> e in c.content
  {
    KeysOf(c.content, c.list)
  }

  /** The last position of x in a history of touches, or -1. */
  function LastTouch<K(==)>(h: seq<K>, x: K): (i: int)
    ensures -1 <= i < |h| && (i >= 0 ==> h[i] == x) && forall j :: i < j < |h| ==> h[j] != x
  {
    if h == [] then -1 else if h[|h| - 1] == x then |h| - 1 else LastTouch(h[..|h| - 1], x)
  }

  /** The keys, each touched in the history h, in the order of their last touch, latest first. */
  ghost predicate ByRecency<K>(keys: seq<K>, h: seq<K>) {
    keys == [] ||
    (&& LastTouch(h, keys[0]) >= 0
     && (forall x :: x in keys[1..] ==> LastTouch(h, x) < LastTouch(h, keys[0]))
     && ByRecency(keys[1..], h))
  }

  lemma LastTouchSnoc<K>(h: seq<K>, k: K, x: K)
    ensures LastTouch(h + [k], x) == if x == k then |h| else LastTouch(h, x)
  {
    assert (h + [k])[..|h|] == h;
  }

  /** Touching k later leaves the order of the other keys. */
  lemma {:induction false} RecencyElsewhere<K>(keys: seq<K>, h: seq<K>, k: K)
    requires ByRecency(keys, h) && k !in keys
    ensures ByRecency(keys, h + [k])
  {
    if keys != [] {
      forall x | x in keys
        ensures LastTouch(h + [k], x) == LastTouch(h, x)
      {
        LastTouchSnoc(h, k, x);
      }
      RecencyElsewhere(keys[1..], h, k);
    }
  }

  lemma {:induction false} RecencyWithout<K(!new)>(keys: seq<K>, h: seq<K>, k: K)
    requires ByRecency(keys, h)
    ensures ByRecency(Without(keys, k), h)
  {
    if keys != [] {
      RecencyWithout(keys[1..], h, k);
      var r := Without(keys, k);
      if keys[0] != k {
        assert r[1..] == Without(keys[1..], k);
      }
    }
  }

  lemma RecencyFront<K>(keys: seq<K>, h: seq<K>, k: K)
    requires ByRecency(keys, h) && k !in keys
    ensures ByRecency([k] + keys, h + [k])
  {
    var all := [k] + keys;
    assert all[1..] == keys;
    RecencyElsewhere(keys, h, k);
    LastTouchSnoc(h, k, k);
    forall x | x in keys
      ensures LastTouch(h + [k], x) < |h|
    {
      LastTouchSnoc(h, k, x);
    }
  }

  /** The last of the list is the one touched longest ago. */
  lemma {:induction false} RecencyLast<K>(keys: seq<K>, h: seq<K>)
    requires ByRecency(keys, h) && keys != []
    ensures ByRecency(keys[..|keys| - 1], h)
    ensures forall x :: x in keys[..|keys| - 1] ==> LastTouch(h, x) > LastTouch(h, keys[|keys| - 1])
    decreases keys
  {
    var n := |keys| - 1;
    if n > 0 {
      RecencyLast(keys[1..], h);
      assert keys[..n][1..] == keys[1..][..n - 1];
      assert keys[..n] == [keys[0]] + keys[1..][..n - 1];
    }
  }

  lemma {:induction false} KeysMembers<K, V>(content: map<Id, Elem<K, V>>, list: seq<Id>)
    requires forall e :: e in list ==> e in content
    ensures |KeysOf(content, list)| == |list|
    ensures forall i :: 0 <= i < |list| ==> KeysOf(content, list)[i] == content[list[i]].key
    decreases list
  {
    if list != [] {
      KeysMembers(content, list[1..]);
    }
  }

  lemma {:induction false} KeysWithout<K(!new), V>(content: map<Id, Elem<K, V>>, list: seq<Id>, e: Id)
    requires e in content && forall x :: x in list ==> x in content
    requires forall x :: x in list && content[x].key == content[e].key ==> x == e
    ensures KeysOf(content, Without(list, e)) == Without(KeysOf(content, list), content[e].key)
    decreases list
  {
    if list != [] {
      KeysWithout(content, list[1..], e);
      var r := Without(list, e);
      assert KeysOf(content, list)[1..] == KeysOf(content, list[1..]);
      if list[0] != e {
        assert r[1..] == Without(list[1..], e);
      }
    }
  }

  lemma {:induction false} KeysSame<K, V>(content: map<Id, Elem<K, V>>, other: map<Id, Elem<K, V>>, list: seq<Id>)
    requires forall e :: e in list ==> e in content && e in other && other[e].key == content[e].key
    ensures KeysOf(other, list) == KeysOf(content, list)
    decreases list
  {
    if list != [] {
      KeysSame(content, other, list[1..]);
    }
  }

  /** Touching a live element, by Get, by GetKeyFromValue or by putting its key again. */
  lemma TouchKeepsRecency<K(!new), V>(c: Cache<K, V>, h: seq<K>, e: Id)
    requires Inv(c) && ByRecency(Keys(c), h) && e in c.list
    ensures var d := c.(list := ToFront(c.list, e));
            && (forall x :: x in d.list ==> x in d.content)
            && Keys(d) == [c.content[e].key] + Without(Keys(c), c.content[e].key)
            && ByRecency(Keys(d), h + [c.content[e].key])
  {
    var k := c.content[e].key;
    var d := c.(list := ToFront(c.list, e));
    KeysWithout(c.content, c.list, e);
    RecencyWithout(Keys(c), h, k);
    RecencyFront(Without(Keys(c), k), h, k);
    assert d.list[1..] == Without(c.list, e);
  }

  /** Putting a key again is a touch. */
  lemma PutAgainKeepsRecency<K(!new), V>(c: Cache<K, V>, h: seq<K>, k: K, v: V)
    requires Inv(c) && ByRecency(Keys(c), h) && k in c.byKey
    ensures Inv(AfterPut(c, k, v)) && ByRecency(Keys(AfterPut(c, k, v)), h + [k])
  {
    InvPut(c, k, v);
    TouchKeepsRecency(c, h, c.byKey[k]);
    KeysSame(c.content, AfterPut(c, k, v).content, ToFront(c.list, c.byKey[k]));
  }

  lemma PushedKeys<K, V>(c: Cache<K, V>, k: K, v: V)
    requires Indexed(c) && k !in c.byKey
    ensures Indexed(Pushed(c, k, v)) && k !in Keys(c) && Keys(Pushed(c, k, v)) == [k] + Keys(c)
  {
    var p := Pushed(c, k, v);
    PushedIndexed(c, k, v);
    hide Distinct;
    assert k !in Keys(c) by {
      KeysMembers(c.content, c.list);
    }
    KeysSame(c.content, p.content, c.list);
    assert p.list[1..] == c.list;
  }

  /** A new key goes to the front; when one must leave, it is the one touched longest ago. */
  lemma InsertKeepsRecency<K, V>(c: Cache<K, V>, h: seq<K>, k: K, v: V)
    requires Inv(c) && ByRecency(Keys(c), h) && k !in c.byKey
    ensures Inv(AfterPut(c, k, v)) && ByRecency(Keys(AfterPut(c, k, v)), h + [k])
    ensures |c.list| < c.capacity ==> Keys(AfterPut(c, k, v)) == [k] + Keys(c)
    ensures |c.list| == c.capacity > 0 ==>
              && Keys(AfterPut(c, k, v)) == [k] + Keys(c)[..|c.list| - 1]
              && forall x :: x in Keys(c)[..|c.list| - 1] ==> LastTouch(h, x) > LastTouch(h, Keys(c)[|c.list| - 1])
  {
    hide ByRecency, LastTouch, KeysOf, Distinct;
    InvPut(c, k, v);
    PushedKeys(c, k, v);
    var p := Pushed(c, k, v);
    RecencyFront(Keys(c), h, k);
    if |p.list| > p.capacity {
      KeysFront(p.content, p.list);
      RecencyLast([k] + Keys(c), h + [k]);
      if c.list != [] {
        RecencyLast(Keys(c), h);
        assert ([k] + Keys(c))[..|c.list|] == [k] + Keys(c)[..|c.list| - 1];
      }
    }
  }

  lemma {:induction false} KeysFront<K, V>(content: map<Id, Elem<K, V>>, list: seq<Id>)
    requires list != [] && forall e :: e in list ==> e in content
    ensures |KeysOf(content, list)| == |list|
    ensures KeysOf(content, list[..|list| - 1]) == KeysOf(content, list)[..|list| - 1]
    decreases list
  {
    KeysMembers(content, list);
    KeysMembers(content, list[..|list| - 1]);
  }

  // ---------------------------------------------------------------- the value index

  /** The value index is the exact inverse of the key index. */
  ghost predicate ExactInverse<K, V>(c: Cache<K, V>) {
    && (forall v :: v in c.byValue ==> c.byValue[v] in c.list && c.byValue[v] in c.content && c.content[c.byValue[v]].value == v)
    && (forall e :: e in c.list ==> e in c.content && c.content[e].value in c.byValue && c.byValue[c.content[e].value] == e)
  }

  /** Where it is, asking it for a value gives exactly the key whose Get gives the value. */
  lemma ValueIndexMeans<K, V>(c: Cache<K, V>, v: V)
    requires Inv(c)
    ensures ExactInverse(c) && v in c.byValue ==> forall k :: Holds(c, k, v) <==> k == c.content[c.byValue[v]].key
    ensures ExactInverse(c) && v !in c.byValue ==> forall k :: !Holds(c, k, v)
  {
    hide Distinct;
  }

  /** The put repeats a live key's own value, or gives a new key a value no live key has. */
  ghost predicate Tame<K, V>(c: Cache<K, V>, k: K, v: V)
    requires Inv(c)
  {
    if k in c.byKey then c.content[c.byKey[k]].value == v
    else forall e :: e in c.list ==> c.content[e].value != v
  }

  lemma PushInverse<K, V>(c: Cache<K, V>, k: K, v: V)
    requires Inv(c) && ExactInverse(c) && k !in c.byKey && Tame(c, k, v)
    ensures ExactInverse(Pushed(c, k, v))
  {
    hide Distinct;
    var p := Pushed(c, k, v);
    PushedMembers(c, k, v);
    assert forall w :: w in c.byValue ==> w != v;
  }

  lemma PushedMembers<K, V>(c: Cache<K, V>, k: K, v: V)
    requires Indexed(c)
    ensures forall e :: e in Pushed(c, k, v).list <==> e == c.next || e in c.list
    ensures c.next !in c.list
  {
    var p := Pushed(c, k, v);
    assert p.list[1..] == c.list && p.list[0] == c.next;
  }

  /** Eviction keeps the inverse. */
  lemma EvictInverse<K, V>(c: Cache<K, V>)
    requires Indexed(c) && c.list != [] && ExactInverse(c)
    ensures ExactInverse(Evicted(c))
  {
    DistinctEnds(c.list);
    EvictedIndexed(c);
  }

  /** A shared value leaves the index without one of its keys, whatever is evicted. */
  lemma SharedBreaks<K, V>(c: Cache<K, V>, k: K, v: V, e: Id)
    requires Inv(c) && ExactInverse(c) && k !in c.byKey && e in c.list && c.content[e].value == v
    ensures !ExactInverse(AfterPut(c, k, v))
  {
    hide Distinct;
    var p := Pushed(c, k, v);
    var n := |p.list| - 1;
    PushedIndexed(c, k, v);
    PushedMembers(c, k, v);
    if |p.list| > p.capacity {
      EvictedIndexed(p);
      var d := Evicted(p);
      assert d.list[0] == c.next;
      if p.list[n] == e {
        assert v !in d.byValue && d.content[c.next].value == v;
      } else {
        assert e in d.list && d.content[e].value == v;
      }
    } else {
      assert e in p.list && p.content[e].value == v && p.byValue[v] == c.next;
    }
  }

  /** Put keeps the exact inverse exactly on tame puts. */
  lemma PutInverseExactly<K, V>(c: Cache<K, V>, k: K, v: V)
    requires Inv(c) && ExactInverse(c)
    ensures ExactInverse(AfterPut(c, k, v)) <==> Tame(c, k, v)
  {
    if k in c.byKey {
      var e := c.byKey[k];
      ToFrontKeeps(c.list, e);
      assert AfterPut(c, k, v).content[e].value == v;
    } else {
      PushedIndexed(c, k, v);
      if Tame(c, k, v) {
        PushInverse(c, k, v);
        EvictInverse(Pushed(c, k, v));
      } else {
        var e :| e in c.list && c.content[e].value == v;
        SharedBreaks(c, k, v, e);
      }
    }
  }


  // ---------------------------------------------------------------- whole runs

  datatype Op<K, V> = Get(k: K) | GetByValue(v: V) | Put(k: K, v: V)

  ghost function Do<K, V>(c: Cache<K, V>, op: Op<K, V>): (d: Cache<K, V>)
    requires Inv(c)
    ensures Inv(d)
  {
    match op
    case Get(k) => InvGet(c, k); Got(c, k)
    case GetByValue(v) => InvGetByValue(c, v); GotByValue(c, v)
    case Put(k, v) => InvPut(c, k, v); AfterPut(c, k, v)
  }

  /** The key that the operation touches, if any. */
  ghost function Touched<K, V>(c: Cache<K, V>, op: Op<K, V>): seq<K>
    requires Inv(c)
  {
    match op
    case Get(k) => if k in c.byKey then [k] else []
    case GetByValue(v) => if v in c.byValue && c.byValue[v] in c.list then [c.content[c.byValue[v]].key] else []
    case Put(k, v) => [k]
  }

  lemma LookupKeeps<K(!new), V>(c: Cache<K, V>, op: Op<K, V>, h: seq<K>)
    requires Inv(c) && ByRecency(Keys(c), h) && !op.Put?
    ensures ByRecency(Keys(Do(c, op)), h + Touched(c, op))
  {
    hide ByRecency, KeysOf, Distinct;
    assert h + [] == h;
    match op {
      case Get(k) =>
        if k in c.byKey {
          TouchKeepsRecency(c, h, c.byKey[k]);
        }
      case GetByValue(v) =>
        if v in c.byValue && c.byValue[v] in c.list {
          TouchKeepsRecency(c, h, c.byValue[v]);
        }
    }
  }

  lemma PutKeeps<K(!new), V>(c: Cache<K, V>, k: K, v: V, h: seq<K>)
    requires Inv(c) && ByRecency(Keys(c), h)
    ensures Inv(AfterPut(c, k, v)) && ByRecency(Keys(AfterPut(c, k, v)), h + [k])
  {
    if k in c.byKey {
      PutAgainKeepsRecency(c, h, k, v);
    } else {
      InsertKeepsRecency(c, h, k, v);
    }
  }

  lemma StepKeepsRecency<K(!new), V>(c: Cache<K, V>, op: Op<K, V>, h: seq<K>)
    requires Inv(c) && ByRecency(Keys(c), h)
    ensures ByRecency(Keys(Do(c, op)), h + Touched(c, op))
  {
    hide ByRecency, KeysOf, Distinct;
    if op.Put? {
      PutKeeps(c, op.k, op.v, h);
    } else {
      LookupKeeps(c, op, h);
    }
  }

  lemma LookupKeepsInverse<K, V>(c: Cache<K, V>, op: Op<K, V>)
    requires Inv(c) && ExactInverse(c) && !op.Put?
    ensures ExactInverse(Do(c, op))
  {
    match op {
      case Get(k) =>
        if k in c.byKey {
          ToFrontKeeps(c.list, c.byKey[k]);
        }
      case GetByValue(v) =>
        if v in c.byValue {
          ToFrontKeeps(c.list, c.byValue[v]);
        }
    }
  }

  ghost function Last<K, V>(c: Cache<K, V>, ops: seq<Op<K, V>>): (d: Cache<K, V>)
    requires Inv(c)
    ensures Inv(d)
    decreases ops
  {
    if ops == [] then c else Last(Do(c, ops[0]), ops[1..])
  }

  /** The touches of a run, in order. */
  ghost function Touches<K, V>(c: Cache<K, V>, ops: seq<Op<K, V>>): seq<K>
    requires Inv(c)
    decreases ops
  {
    if ops == [] then [] else Touched(c, ops[0]) + Touches(Do(c, ops[0]), ops[1..])
  }

  /** Every put of the run is tame where it happens. */
  ghost predicate TameRun<K, V>(c: Cache<K, V>, ops: seq<Op<K, V>>)
    requires Inv(c)
    decreases ops
  {
    ops == [] || ((ops[0].Put? ==> Tame(c, ops[0].k, ops[0].v)) && TameRun(Do(c, ops[0]), ops[1..]))
  }

  /** Over every run: the size bound and the agreement of list and key index hold (the type of Last
      says so), and the list is in the order of last touch. */
  lemma {:induction false} RunKeepsRecency<K(!new), V>(c: Cache<K, V>, ops: seq<Op<K, V>>, h: seq<K>)
    requires Inv(c) && ByRecency(Keys(c), h)
    ensures Inv(Last(c, ops)) && ByRecency(Keys(Last(c, ops)), h + Touches(c, ops))
    decreases ops
  {
    hide ByRecency, KeysOf, Do, Touched, Distinct;
    if ops == [] {
      assert h + Touches(c, ops) == h;
    } else {
      var t, d := Touched(c, ops[0]), Do(c, ops[0]);
      StepKeepsRecency(c, ops[0], h);
      RunKeepsRecency(d, ops[1..], h + t);
      assert h + (t + Touches(d, ops[1..])) == h + t + Touches(d, ops[1..]);
    }
  }

  /** In a run of tame puts the value index stays the exact inverse of the key index. */
  lemma {:induction false} TameRunKeepsInverse<K, V>(c: Cache<K, V>, ops: seq<Op<K, V>>)
    requires Inv(c) && ExactInverse(c) && TameRun(c, ops)
    ensures ExactInverse(Last(c, ops))
    decreases ops
  {
    hide ExactInverse, Tame;
    if ops != [] {
      if ops[0].Put? {
        PutInverseExactly(c, ops[0].k, ops[0].v);
      } else {
        LookupKeepsInverse(c, ops[0]);
      }
      TameRunKeepsInverse(Do(c, ops[0]), ops[1..]);
    }
  }

  lemma NothingCached<K, V>(capacity: nat)
    ensures Inv<K, V>(NewCache(capacity)) && ExactInverse<K, V>(NewCache(capacity)) && Keys<K, V>(NewCache(capacity)) == []
  {
    InvEmpty<K, V>(capacity);
  }

  /** A new cache: in every run at most `capacity` keys, in the order of last touch. */
  lemma NewCacheKeepsRecency<K(!new), V>(capacity: nat, ops: seq<Op<K, V>>)
    ensures Inv<K, V>(NewCache(capacity))
    ensures var c := Last(NewCache(capacity), ops);
            Inv(c) && |Keys(c)| <= capacity && ByRecency(Keys(c), Touches(NewCache(capacity), ops))
  {
    NothingCached<K, V>(capacity);
    RunKeepsRecency(NewCache(capacity), ops, []);
    assert [] + Touches(NewCache(capacity), ops) == Touches(NewCache(capacity), ops);
    SameCapacity(NewCache(capacity), ops);
  }

  lemma {:induction false} SameCapacity<K, V>(c: Cache<K, V>, ops: seq<Op<K, V>>)
    requires Inv(c)
    ensures Last(c, ops).capacity == c.capacity
    decreases ops
  {
    hide Inv;
    if ops != [] {
      SameCapacity(Do(c, ops[0]), ops[1..]);
    }
  }

  /** A new cache with tame puts only: at any time a value gives exactly the key whose Get gives it. */
  lemma NewCacheInverse<K, V>(capacity: nat, ops: seq<Op<K, V>>, v: V)
    requires Inv<K, V>(NewCache(capacity)) && TameRun(NewCache(capacity), ops)
    ensures var c := Last(NewCache(capacity), ops);
            && ExactInverse(c)
            && (v in c.byValue ==> forall k :: Holds(c, k, v) <==> k == c.content[c.byValue[v]].key)
            && (v !in c.byValue ==> forall k :: !Holds(c, k, v))
  {
    NothingCached<K, V>(capacity);
    TameRunKeepsInverse(NewCache(capacity), ops);
    ValueIndexMeans(Last(NewCache(capacity), ops), v);
    hide Inv, Last;
  }
}
