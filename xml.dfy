/**
 * The configuration tree as ElementTree presents it: elements with a tag, an attribute dict kept
 * in insertion order, text and children, walked by `iter()` in document order.
 */
module Xml {
  import opened Wrappers

  /** An attribute dict as an association list in insertion order. */
  type Attrs = seq<(string, string)>

  datatype Element = Element(tag: string, attrib: Attrs, text: string, children: seq<Element>)

  function Keys(attrs: Attrs): (ks: seq<string>)
    ensures |ks| == |attrs| && forall i :: 0 <= i < |attrs| ==> ks[i] == attrs[i].0
  {
    if attrs == [] then [] else [attrs[0].0] + Keys(attrs[1..])
  }

  /** What a Python dict guarantees: no key twice. */
  predicate UniqueKeys(attrs: Attrs) {
    forall i, j :: 0 <= i < j < |attrs| ==> attrs[i].0 != attrs[j].0
  }

  /** The mapping a list of pairs denotes when later pairs override earlier ones. */
  function AsMap(pairs: Attrs): map<string, string>
    decreases |pairs|
  {
    if pairs == [] then map[]
    else AsMap(pairs[..|pairs| - 1])[pairs[|pairs| - 1].0 := pairs[|pairs| - 1].1]
  }

  /** A dict's keys are distinct exactly when its first key is new and the rest are distinct. */
  lemma UniqueKeysCons(attrs: Attrs)
    requires attrs != []
    ensures UniqueKeys(attrs) <==> attrs[0].0 !in Keys(attrs[1..]) && UniqueKeys(attrs[1..])
  {
    var tail := attrs[1..];
    assert forall i :: 0 <= i < |tail| ==> tail[i] == attrs[i + 1];
    if attrs[0].0 in Keys(tail) {
      var j :| 0 <= j < |tail| && Keys(tail)[j] == attrs[0].0;
      assert attrs[j + 1].0 == attrs[0].0;
    }
  }

  /** `d[key]`, as an Option. */
  function Get(attrs: Attrs, key: string): (r: Option<string>)
    ensures r.None? <==> forall i :: 0 <= i < |attrs| ==> attrs[i].0 != key
    ensures r.Some? ==> exists i :: 0 <= i < |attrs| && attrs[i] == (key, r.value)
  {
    if attrs == [] then None
    else if attrs[0].0 == key then Some(attrs[0].1)
    else
      var r := Get(attrs[1..], key);
      assert forall i :: 1 <= i < |attrs| ==> attrs[i] == attrs[1..][i - 1];
      r
  }

  /** `d[key] = value`: an existing key keeps its place, a new one goes at the end. */
  function Assign(attrs: Attrs, key: string, value: string): (r: Attrs)
    ensures |r| == if forall i :: 0 <= i < |attrs| ==> attrs[i].0 != key then |attrs| + 1 else |attrs|
  {
    if attrs == [] then [(key, value)]
    else if attrs[0].0 == key then [(key, value)] + attrs[1..]
    else [attrs[0]] + Assign(attrs[1..], key, value)
  }

  /** Assignment keeps the keys unique and in order, appending `key` when it is new. */
  lemma {:induction false} AssignKeys(attrs: Attrs, key: string, value: string)
    requires UniqueKeys(attrs)
    ensures UniqueKeys(Assign(attrs, key, value))
    ensures Keys(Assign(attrs, key, value)) ==
      if key in Keys(attrs) then Keys(attrs) else Keys(attrs) + [key]
  {
    var r := Assign(attrs, key, value);
    if attrs == [] {
      assert Keys(r) == [key];
    } else {
      var tail := attrs[1..];
      UniqueKeysCons(attrs);
      UniqueKeysCons(r);
      assert Keys(attrs) == [attrs[0].0] + Keys(tail);
      if attrs[0].0 == key {
        assert r[1..] == tail;
        assert Keys(r) == [key] + Keys(tail);
      } else {
        AssignKeys(tail, key, value);
        var r' := Assign(tail, key, value);
        assert r[1..] == r';
        assert Keys(r) == [attrs[0].0] + Keys(r');
        assert key in Keys(attrs) <==> key in Keys(tail);
      }
    }
  }

  /** Looking a key up after assigning it. */
  lemma {:induction false} GetAssign(attrs: Attrs, key: string, value: string, k: string)
    ensures Get(Assign(attrs, key, value), k) == if k == key then Some(value) else Get(attrs, k)
  {
    if attrs != [] && attrs[0].0 != key {
      GetAssign(attrs[1..], key, value, k);
    }
  }

  /** AsMap maps exactly the keys of the pairs. */
  lemma {:induction false} AsMapKeys(pairs: Attrs, k: string)
    ensures k in AsMap(pairs) <==> exists i :: 0 <= i < |pairs| && pairs[i].0 == k
    decreases |pairs|
  {
    if pairs != [] {
      var n := |pairs| - 1;
      var init := pairs[..n];
      AsMapKeys(init, k);
      assert forall i :: 0 <= i < n ==> init[i] == pairs[i];
      if k in AsMap(pairs) && k != pairs[n].0 {
        var i :| 0 <= i < n && init[i].0 == k;
        assert pairs[i].0 == k;
      }
    }
  }

  /** For a dict, AsMap and Get agree. */
  lemma AsMapGet(attrs: Attrs, k: string)
    requires UniqueKeys(attrs)
    ensures k in AsMap(attrs) <==> Get(attrs, k).Some?
    ensures k in AsMap(attrs) ==> AsMap(attrs)[k] == Get(attrs, k).value
  {
    AsMapKeys(attrs, k);
    if Get(attrs, k).Some? {
      var i :| 0 <= i < |attrs| && attrs[i] == (k, Get(attrs, k).value);
      AsMapUnique(attrs, i);
    }
  }

  lemma AssignMapAt(attrs: Attrs, key: string, value: string, k: string)
    requires UniqueKeys(attrs) && UniqueKeys(Assign(attrs, key, value))
    ensures var m, m' := AsMap(Assign(attrs, key, value)), AsMap(attrs)[key := value];
      (k in m <==> k in m') && (k in m ==> m[k] == m'[k])
  {
    AsMapGet(attrs, k);
    AsMapGet(Assign(attrs, key, value), k);
    GetAssign(attrs, key, value, k);
  }

  /** Assignment changes the mapping at `key` only. */
  lemma AssignMap(attrs: Attrs, key: string, value: string)
    requires UniqueKeys(attrs)
    ensures AsMap(Assign(attrs, key, value)) == AsMap(attrs)[key := value]
  {
    AssignKeys(attrs, key, value);
    var m, m' := AsMap(Assign(attrs, key, value)), AsMap(attrs)[key := value];
    forall k ensures (k in m <==> k in m') && (k in m ==> m[k] == m'[k]) {
      AssignMapAt(attrs, key, value, k);
    }
  }

  /** For a dict, AsMap maps each key to the value stored with it. */
  lemma {:induction false} AsMapUnique(attrs: Attrs, i: nat)
    requires UniqueKeys(attrs) && i < |attrs|
    ensures attrs[i].0 in AsMap(attrs) && AsMap(attrs)[attrs[i].0] == attrs[i].1
    decreases |attrs|
  {
    var n := |attrs| - 1;
    if i < n {
      var init := attrs[..n];
      assert forall j :: 0 <= j < n ==> init[j] == attrs[j];
      assert UniqueKeys(init);
      AsMapUnique(init, i);
      assert attrs[i].0 != attrs[n].0;
    }
  }

  /** `iter()`: the element, then each child's subtree in order (document order). */
  function Iter(e: Element): (r: seq<Element>)
    ensures |r| >= 1 && r[0] == e
    decreases e, 1
  {
    [e] + IterAll(e.children)
  }

  function IterAll(cs: seq<Element>): seq<Element>
    decreases cs, 0
  {
    if cs == [] then [] else Iter(cs[0]) + IterAll(cs[1..])
  }

  /** Iterating a list of siblings split in two is iterating the first part, then the second. */
  lemma {:induction false} IterAllAppend(cs: seq<Element>, ds: seq<Element>)
    ensures IterAll(cs + ds) == IterAll(cs) + IterAll(ds)
    decreases |cs|
  {
    if cs == [] {
      assert cs + ds == ds;
    } else {
      assert (cs + ds)[0] == cs[0] && (cs + ds)[1..] == cs[1..] + ds;
      IterAllAppend(cs[1..], ds);
    }
  }

  /**
   * Document order: the element comes first, then the subtrees of its children one after the other,
   * each child's whole subtree after those of the children before it and before those after it.
   */
  lemma IterChildOrder(e: Element, i: nat)
    requires i < |e.children|
    ensures Iter(e) == [e] + IterAll(e.children[..i]) + Iter(e.children[i]) + IterAll(e.children[i + 1..])
  {
    var cs := e.children;
    assert cs == cs[..i] + cs[i..];
    IterAllAppend(cs[..i], cs[i..]);
    assert cs[i..][0] == cs[i] && cs[i..][1..] == cs[i + 1..];
  }

  /** The nodes of a list of siblings are exactly the nodes of their subtrees. */
  lemma {:induction false} IterAllMembers(cs: seq<Element>, x: Element)
    ensures x in IterAll(cs) <==> exists c :: c in cs && x in Iter(c)
    decreases |cs|
  {
    if cs != [] {
      IterAllMembers(cs[1..], x);
      assert IterAll(cs) == Iter(cs[0]) + IterAll(cs[1..]);
      if exists c :: c in cs && x in Iter(c) {
        var c :| c in cs && x in Iter(c);
        if c != cs[0] {
          assert c in cs[1..];
        }
      }
      if x in Iter(cs[0]) {
        assert cs[0] in cs;
      }
    }
  }

  /** `iter()` yields exactly the element and the nodes of its children's subtrees. */
  lemma IterMembers(e: Element, x: Element)
    ensures x in Iter(e) <==> x == e || exists c :: c in e.children && x in Iter(c)
  {
    IterAllMembers(e.children, x);
  }

  /** `find(tag)`: the first direct child with that tag. */
  function Find(e: Element, tag: string): (r: Option<Element>)
    ensures r.Some? ==> exists i :: 0 <= i < |e.children| && e.children[i] == r.value && r.value.tag == tag
                          && forall j :: 0 <= j < i ==> e.children[j].tag != tag
    ensures r.None? ==> forall c :: c in e.children ==> c.tag != tag
  {
    FindIn(e.children, tag)
  }

  function FindIn(cs: seq<Element>, tag: string): (r: Option<Element>)
    ensures r.Some? ==> exists i :: 0 <= i < |cs| && cs[i] == r.value && r.value.tag == tag
                          && forall j :: 0 <= j < i ==> cs[j].tag != tag
    ensures r.None? ==> forall c :: c in cs ==> c.tag != tag
  {
    if cs == [] then None
    else if cs[0].tag == tag then Some(cs[0])
    else
      var r := FindIn(cs[1..], tag);
      assert forall c :: c in cs ==> c == cs[0] || c in cs[1..];
      if r.Some? then
        var i :| 0 <= i < |cs[1..]| && cs[1..][i] == r.value && r.value.tag == tag
                 && forall j :: 0 <= j < i ==> cs[1..][j].tag != tag;
        assert cs[i + 1] == r.value && forall j :: 0 <= j < i + 1 ==> cs[j].tag != tag by {
          forall j | 0 <= j < i + 1 ensures cs[j].tag != tag {
            if j > 0 { assert cs[j] == cs[1..][j - 1]; }
          }
        }
        r
      else r
  }
}
