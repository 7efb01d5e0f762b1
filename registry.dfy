/**
 * The registry of class modules (src/lib.rs). The source keeps the
 * modules in a `BTreeMap<String, Box<dyn DescriptorDecoderModule>>`: one
 * module per name, iterated in ascending name order. The model keeps the
 * modules in a sequence whose names strictly ascend; `Insert` is the
 * map's `insert` on that representation, and `AsMap` is the map it
 * represents. The decoder object that holds the registry is in
 * decoder.dfy.
 */
module Registry {
  import opened Bytes
  import opened Errors
  import opened InterfaceDesc

  /**
   * `DescriptorDecoderModule`: a name, a predicate over the
   * (class, subclass, protocol) triple, and a parser that returns a
   * function and the number of bytes it consumed.
   */
  datatype Module = Module(
    name: string,
    filterTriple: (u8, u8, u8) -> bool,
    parse: seq<u8> -> Result<(UsbFunction, nat)>)

  /** The ordering of Rust's `String`: lexicographic, a proper prefix first. */
  predicate NameLess(a: string, b: string) {
    if |a| == 0 then |b| > 0
    else if |b| == 0 then false
    else a[0] < b[0] || (a[0] == b[0] && NameLess(a[1..], b[1..]))
  }

  lemma {:induction false} NameLessIrreflexive(a: string)
    ensures !NameLess(a, a)
  {
    if |a| > 0 {
      NameLessIrreflexive(a[1..]);
    }
  }

  lemma {:induction false} NameLessTransitive(a: string, b: string, c: string)
    requires NameLess(a, b) && NameLess(b, c)
    ensures NameLess(a, c)
  {
    if |a| > 0 && |b| > 0 && |c| > 0 && a[0] == b[0] == c[0] {
      NameLessTransitive(a[1..], b[1..], c[1..]);
    }
  }

  /** Any two different names are ordered one way or the other. */
  lemma {:induction false} NameLessTotal(a: string, b: string)
    requires a != b
    ensures NameLess(a, b) || NameLess(b, a)
  {
    if |a| > 0 && |b| > 0 && a[0] == b[0] {
      assert a == [a[0]] + a[1..] && b == [b[0]] + b[1..];
      NameLessTotal(a[1..], b[1..]);
    }
  }

  /** Names strictly ascend: the iteration order of the map, and one module per name. */
  ghost predicate Ascending(s: seq<Module>) {
    forall i, j :: 0 <= i < j < |s| ==> NameLess(s[i].name, s[j].name)
  }

  /** The names present in `s`. */
  function Names(s: seq<Module>): set<string> {
    set i | 0 <= i < |s| :: s[i].name
  }

  /** The name-keyed map that `s` represents (the first module of a name wins). */
  function AsMap(s: seq<Module>): map<string, Module>
    decreases |s|
  {
    if |s| == 0 then map[] else AsMap(s[1..])[s[0].name := s[0]]
  }

  /** `BTreeMap::insert`: replace the module of the same name, or add `m` in name order. */
  function Insert(s: seq<Module>, m: Module): (r: seq<Module>)
    decreases |s|
  {
    if |s| == 0 then [m]
    else if s[0].name == m.name then [m] + s[1..]
    else if NameLess(m.name, s[0].name) then [m] + s
    else [s[0]] + Insert(s[1..], m)
  }

  /** The names of a registry with `x` in front. */
  lemma NamesCons(x: Module, t: seq<Module>)
    ensures Names([x] + t) == Names(t) + {x.name}
  {
    var s := [x] + t;
    assert s[0].name == x.name;
    forall n | n in Names(s) ensures n in Names(t) + {x.name} {
      var i :| 0 <= i < |s| && s[i].name == n;
      if i > 0 { assert t[i - 1].name == n; }
    }
    forall n | n in Names(t) ensures n in Names(s) {
      var i :| 0 <= i < |t| && t[i].name == n;
      assert s[i + 1].name == n;
    }
  }

  lemma {:induction false} AsMapKeys(s: seq<Module>)
    ensures AsMap(s).Keys == Names(s)
    decreases |s|
  {
    if |s| > 0 {
      AsMapKeys(s[1..]);
      assert s == [s[0]] + s[1..];
      NamesCons(s[0], s[1..]);
    }
  }

  /** A name below the first of an ascending registry is below all of them, so it is absent. */
  lemma BelowFirstIsAbsent(s: seq<Module>, n: string)
    requires Ascending(s) && |s| > 0 && NameLess(n, s[0].name)
    ensures forall i :: 0 <= i < |s| ==> NameLess(n, s[i].name)
    ensures n !in Names(s)
  {
    forall i | 0 <= i < |s| ensures NameLess(n, s[i].name) {
      if i > 0 { NameLessTransitive(n, s[0].name, s[i].name); }
    }
    NameLessIrreflexive(n);
  }

  /**
   * Inserting adds `m.name` to the names, and grows the registry by one
   * exactly when the name is new.
   */
  lemma {:induction false} InsertNames(s: seq<Module>, m: Module)
    requires Ascending(s)
    ensures Names(Insert(s, m)) == Names(s) + {m.name}
    ensures |Insert(s, m)| == if m.name in Names(s) then |s| else |s| + 1
    decreases |s|
  {
    if |s| == 0 {
      assert Insert(s, m)[0].name == m.name;
    } else if s[0].name == m.name {
      assert s == [s[0]] + s[1..];
      NamesCons(s[0], s[1..]);
      NamesCons(m, s[1..]);
    } else if NameLess(m.name, s[0].name) {
      BelowFirstIsAbsent(s, m.name);
      NamesCons(m, s);
    } else {
      var t := s[1..];
      assert s == [s[0]] + t;
      InsertNames(t, m);
      NamesCons(s[0], t);
      NamesCons(s[0], Insert(t, m));
    }
  }

  /** Inserting into an ascending registry keeps it ascending. */
  lemma {:induction false} InsertAscending(s: seq<Module>, m: Module)
    requires Ascending(s)
    ensures Ascending(Insert(s, m))
    decreases |s|
  {
    var r := Insert(s, m);
    if |s| == 0 {
    } else if s[0].name == m.name {
      assert r[1..] == s[1..];
    } else if NameLess(m.name, s[0].name) {
      BelowFirstIsAbsent(s, m.name);
      assert r[1..] == s;
    } else {
      NameLessTotal(m.name, s[0].name);
      var t := s[1..];
      InsertAscending(t, m);
      InsertNames(t, m);
      var rt := Insert(t, m);
      assert r == [s[0]] + rt;
      forall j | 0 < j < |r| ensures NameLess(r[0].name, r[j].name) {
        assert r[j].name in Names(rt) by { assert rt[j - 1].name == r[j].name; }
        if r[j].name != m.name {
          var k :| 0 <= k < |t| && t[k].name == r[j].name;
          assert s[k + 1].name == r[j].name;
        }
      }
    }
  }

  /** In an ascending registry every name occurs once, so the map view holds each module. */
  lemma {:induction false} AsMapAt(s: seq<Module>, i: nat)
    requires Ascending(s) && i < |s|
    ensures s[i].name in AsMap(s) && AsMap(s)[s[i].name] == s[i]
    decreases |s|
  {
    if i > 0 {
      assert Ascending(s[1..]);
      AsMapAt(s[1..], i - 1);
      assert s[1..][i - 1] == s[i];
      NameLessIrreflexive(s[0].name);
      assert s[0].name != s[i].name;
    }
  }

  /**
   * `insert` as a map update: the registry afterwards maps `m.name` to `m`
   * and every other name to what it mapped to before.
   */
  lemma {:induction false} InsertAsMap(s: seq<Module>, m: Module)
    requires Ascending(s)
    ensures AsMap(Insert(s, m)) == AsMap(s)[m.name := m]
    decreases |s|
  {
    if |s| == 0 {
    } else if s[0].name == m.name {
      assert Insert(s, m)[1..] == s[1..];
    } else if NameLess(m.name, s[0].name) {
      assert Insert(s, m)[1..] == s;
      BelowFirstIsAbsent(s, m.name);
      AsMapKeys(s);
    } else {
      assert Ascending(s[1..]);
      InsertAsMap(s[1..], m);
      assert Insert(s, m)[1..] == Insert(s[1..], m);
    }
  }
}
