/** A configuration document as the program handles it through ConfigObj: an
    ordered sequence of named sections, each an ordered sequence of key/value
    entries. Reading and writing the INI text is not modelled; a file holds a
    document. Setting an existing key keeps its place, setting a new key
    appends it, and popping a key removes it, as with an ordered dictionary. */
module Config {
  import opened Wrappers

  /** The values the program stores: strings, the id-mapping flag and the
      numeric range bounds. */
  datatype Value = Text(s: string) | Flag(b: bool) | Number(n: int)

  datatype Entry = Entry(key: string, value: Value)

  datatype Section = Section(name: string, entries: seq<Entry>)

  type Document = seq<Section>

  // ---------------------------------------------------------------------
  // Entries of one section

  function KeySet(es: seq<Entry>): set<string>
  {
    if es == [] then {} else {es[0].key} + KeySet(es[1..])
  }

  /** No key occurs twice, as in a dictionary. */
  predicate DistinctKeys(es: seq<Entry>)
  {
    forall i, j :: 0 <= i < j < |es| ==> es[i].key != es[j].key
  }

  lemma {:induction false} KeyInKeySet(es: seq<Entry>, i: int)
    requires 0 <= i < |es|
    ensures es[i].key in KeySet(es)
  {
    if i > 0 {
      KeyInKeySet(es[1..], i - 1);
    }
  }

  lemma {:induction false} KeySetWitness(es: seq<Entry>, k: string)
    requires k in KeySet(es)
    ensures exists i :: 0 <= i < |es| && es[i].key == k
  {
    if es[0].key != k {
      KeySetWitness(es[1..], k);
      var i :| 0 <= i < |es[1..]| && es[1..][i].key == k;
      assert es[i + 1].key == k;
    }
  }

  /** A list is free of repeated keys exactly when its head key is not among
      the keys of its tail and its tail is free of them. */
  lemma DistinctKeysCons(es: seq<Entry>)
    requires es != []
    ensures DistinctKeys(es) <==> es[0].key !in KeySet(es[1..]) && DistinctKeys(es[1..])
  {
    var t := es[1..];
    if DistinctKeys(es) {
      if es[0].key in KeySet(t) {
        KeySetWitness(t, es[0].key);
        assert false;
      }
      forall i, j | 0 <= i < j < |t| ensures t[i].key != t[j].key {
        assert t[i] == es[i + 1] && t[j] == es[j + 1];
      }
    }
    if es[0].key !in KeySet(t) && DistinctKeys(t) {
      forall i, j | 0 <= i < j < |es| ensures es[i].key != es[j].key {
        assert es[j] == t[j - 1];
        if i == 0 {
          KeyInKeySet(t, j - 1);
        } else {
          assert es[i] == t[i - 1];
        }
      }
    }
  }

  /** In a list without repeated keys, looking a key up finds its entry. */
  lemma {:induction false} GetAt(es: seq<Entry>, i: int)
    requires DistinctKeys(es) && 0 <= i < |es|
    ensures Get(es, es[i].key) == Some(es[i].value)
  {
    if i > 0 {
      DistinctKeysCons(es);
      assert es[1..][i - 1] == es[i];
      GetAt(es[1..], i - 1);
    }
  }

  /** Lists with the same keys position by position, equal outside the keys
      `ks`, give the same answer for every key outside `ks`. */
  lemma {:induction false} GetAgreesOutside(a: seq<Entry>, b: seq<Entry>, ks: set<string>, k: string)
    requires |a| == |b|
    requires forall i :: 0 <= i < |a| ==> a[i].key == b[i].key && (a[i].key !in ks ==> a[i] == b[i])
    requires k !in ks
    ensures Get(a, k) == Get(b, k)
  {
    if a != [] {
      GetAgreesOutside(a[1..], b[1..], ks, k);
    }
  }

  /** A key no entry carries is not found. */
  lemma {:induction false} GetAbsent(es: seq<Entry>, k: string)
    requires forall i :: 0 <= i < |es| ==> es[i].key != k
    ensures Get(es, k) == None
  {
    if es != [] {
      assert forall i :: 0 <= i < |es[1..]| ==> es[1..][i] == es[i + 1];
      GetAbsent(es[1..], k);
    }
  }

  /** Looking a key up in two lists one after the other: the first list
      answers when it holds the key, the second otherwise. */
  lemma {:induction false} GetAppend(a: seq<Entry>, b: seq<Entry>, k: string)
    ensures Get(a + b, k) == if Get(a, k).Some? then Get(a, k) else Get(b, k)
  {
    if a != [] {
      assert (a + b)[0] == a[0] && (a + b)[1..] == a[1..] + b;
      GetAppend(a[1..], b, k);
    } else {
      assert a + b == b;
    }
  }

  /** `section.get(k)`: the value of the first entry with key `k`. */
  function Get(es: seq<Entry>, k: string): (r: Option<Value>)
    ensures r.None? <==> k !in KeySet(es)
  {
    if es == [] then None
    else if es[0].key == k then Some(es[0].value)
    else Get(es[1..], k)
  }

  /** The entries whose keys are not in `ks`, in their original order. */
  function Without(es: seq<Entry>, ks: set<string>): (r: seq<Entry>)
    ensures KeySet(r) == KeySet(es) - ks
  {
    if es == [] then []
    else if es[0].key in ks then Without(es[1..], ks)
    else [es[0]] + Without(es[1..], ks)
  }

  /** `section[k] = v`: overwrites `k` in place, or appends it when absent. */
  function Set(es: seq<Entry>, k: string, v: Value): (r: seq<Entry>)
    ensures Get(r, k) == Some(v)
    ensures forall j :: j != k ==> Get(r, j) == Get(es, j)
    ensures KeySet(r) == KeySet(es) + {k}
    ensures Without(r, {k}) == Without(es, {k})
    ensures k !in KeySet(es) ==> r == es + [Entry(k, v)]
  {
    if es == [] then [Entry(k, v)]
    else if es[0].key == k then [Entry(k, v)] + es[1..]
    else
      var t := Set(es[1..], k, v);
      assert k !in KeySet(es) ==> [es[0]] + t == es + [Entry(k, v)] by {
        if k !in KeySet(es) {
          assert es == [es[0]] + es[1..];
        }
      }
      [es[0]] + t
  }

  /** Successive assignments `section[k] = v`, one per entry of
      `assignments`, in order. */
  function Assign(es: seq<Entry>, assignments: seq<Entry>): seq<Entry>
    decreases |assignments|
  {
    if assignments == [] then es
    else Assign(Set(es, assignments[0].key, assignments[0].value), assignments[1..])
  }

  /** Assigning keys that are distinct and new to the section appends them,
      in the order they were assigned. */
  lemma {:induction false} AssignFresh(es: seq<Entry>, assignments: seq<Entry>)
    requires DistinctKeys(es + assignments)
    ensures Assign(es, assignments) == es + assignments
    decreases |assignments|
  {
    if assignments != [] {
      var all := es + assignments;
      var e, rest := assignments[0], assignments[1..];
      forall j | 0 <= j < |es| ensures es[j].key != e.key {
        assert all[j] == es[j] && all[|es|] == e;
      }
      if e.key in KeySet(es) {
        KeySetWitness(es, e.key);
        assert false;
      }
      var next := Set(es, e.key, e.value);
      assert next == es + [e];
      assert next + rest == all;
      AssignFresh(next, rest);
    }
  }

  /** `section.pop(k, None)`: removes `k`, and does nothing when absent. */
  function Pop(es: seq<Entry>, k: string): (r: seq<Entry>)
    ensures Get(r, k) == None
    ensures forall j :: j != k ==> Get(r, j) == Get(es, j)
    ensures KeySet(r) == KeySet(es) - {k}
    ensures Without(r, {k}) == Without(es, {k})
  {
    if es == [] then []
    else if es[0].key == k then Pop(es[1..], k)
    else [es[0]] + Pop(es[1..], k)
  }

  /** Setting a key never introduces a repeated key. */
  lemma {:induction false} SetKeepsDistinct(es: seq<Entry>, k: string, v: Value)
    requires DistinctKeys(es)
    ensures DistinctKeys(Set(es, k, v))
  {
    if es != [] {
      DistinctKeysCons(es);
      var r := Set(es, k, v);
      if es[0].key == k {
        assert r[1..] == es[1..];
      } else {
        SetKeepsDistinct(es[1..], k, v);
        assert r[1..] == Set(es[1..], k, v);
      }
      DistinctKeysCons(r);
    }
  }

  /** Popping a key never introduces a repeated key. */
  lemma {:induction false} PopKeepsDistinct(es: seq<Entry>, k: string)
    requires DistinctKeys(es)
    ensures DistinctKeys(Pop(es, k))
  {
    if es != [] {
      DistinctKeysCons(es);
      PopKeepsDistinct(es[1..], k);
      var r := Pop(es, k);
      if es[0].key != k {
        assert r[1..] == Pop(es[1..], k);
        DistinctKeysCons(r);
      }
    }
  }

  /** Two lists without repeated keys and without a key in common make one. */
  lemma DistinctKeysAppend(a: seq<Entry>, b: seq<Entry>)
    requires DistinctKeys(a) && DistinctKeys(b)
    requires forall i, j :: 0 <= i < |a| && 0 <= j < |b| ==> a[i].key != b[j].key
    ensures DistinctKeys(a + b)
  {
    var ab := a + b;
    forall i, j | 0 <= i < j < |ab| ensures ab[i].key != ab[j].key {
      if j < |a| {
        assert ab[i] == a[i] && ab[j] == a[j];
      } else if i < |a| {
        assert ab[i] == a[i] && ab[j] == b[j - |a|];
      } else {
        assert ab[i] == b[i - |a|] && ab[j] == b[j - |a|];
      }
    }
  }

  /** Dropping two key sets one after the other drops their union. */
  lemma {:induction false} WithoutTwice(es: seq<Entry>, a: set<string>, b: set<string>)
    ensures Without(Without(es, a), b) == Without(es, a + b)
  {
    if es != [] {
      WithoutTwice(es[1..], a, b);
      if es[0].key !in a {
        assert Without(es, a) == [es[0]] + Without(es[1..], a);
        assert Without(es, a)[1..] == Without(es[1..], a);
      }
    }
  }

  /** Two entry lists that agree once `k` is dropped agree once any key set
      holding `k` is dropped. */
  lemma WithoutWiden(x: seq<Entry>, y: seq<Entry>, k: string, ks: set<string>)
    requires k in ks
    requires Without(x, {k}) == Without(y, {k})
    ensures Without(x, ks) == Without(y, ks)
  {
    WithoutTwice(x, {k}, ks);
    WithoutTwice(y, {k}, ks);
    assert {k} + ks == ks;
  }

  // ---------------------------------------------------------------------
  // Sections of a document

  /** The section names in document order, as iterating the document yields
      them. */
  function Names(doc: Document): (ns: seq<string>)
    ensures |ns| == |doc|
    ensures forall i :: 0 <= i < |doc| ==> ns[i] == doc[i].name
  {
    seq(|doc|, i requires 0 <= i < |doc| => doc[i].name)
  }

  /** The position of the first occurrence of `n` in `ns`. */
  function IndexOf(ns: seq<string>, n: string): (i: nat)
    requires n in ns
    ensures i < |ns| && ns[i] == n
    ensures forall j :: 0 <= j < i ==> ns[j] != n
  {
    if ns[0] == n then 0 else 1 + IndexOf(ns[1..], n)
  }

  /** `i` is the first section called `name`. */
  predicate FirstNamedAt(doc: Document, name: string, i: int)
  {
    0 <= i < |doc| && doc[i].name == name && forall j :: 0 <= j < i ==> doc[j].name != name
  }

  /** `doc[name]`: the entries of the first section called `name`. */
  function GetSection(doc: Document, name: string): (r: Option<seq<Entry>>)
    ensures r.None? <==> name !in Names(doc)
    ensures r.Some? ==> exists i :: FirstNamedAt(doc, name, i) && r.value == doc[i].entries
  {
    if name in Names(doc) then Some(doc[IndexOf(Names(doc), name)].entries) else None
  }

  /** Replaces, in place, the entries of the first section called `name`; every
      other section and the order of all sections stay as they were. */
  function PutSection(doc: Document, name: string, es: seq<Entry>): (r: Document)
    requires name in Names(doc)
    ensures Names(r) == Names(doc)
    ensures forall i :: 0 <= i < |doc| && doc[i].name != name ==> r[i] == doc[i]
    ensures GetSection(r, name) == Some(es)
    ensures forall n :: n != name ==> GetSection(r, n) == GetSection(doc, n)
  {
    var i := IndexOf(Names(doc), name);
    var r := doc[i := Section(name, es)];
    assert Names(r) == Names(doc);
    r
  }
}
