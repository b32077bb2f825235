/** Queries over a registered schema, with their caches: subtrees, ancestors, the columns of a table. */
module RegistryQueries {
  import opened Common
  import opened Registry
  import opened RegistryTree
  import opened RegistryRoots
  import opened RegistryLinks
  import Paths

  // ---------------------------------------------------------------------------------- Specification

  /** The registered messages at or under a path; none for the empty path. */
  ghost function Subtree(s: State, p: Path): set<Path> {
    if p == [] then {} else set i | i in s.messages.Items && p <= i.1 :: i.1
  }

  /** Each parent is shorter. */
  ghost predicate ParentsShrink(s: State) { forall q :: q in s.parents ==> |s.parents[q]| < |q| }

  /** An object and its parents, to the end of the chain. */
  ghost function Chain(s: State, q: Path): set<Path>
    requires ParentsShrink(s)
    decreases |q|
  {
    {q} + if q in s.parents then Chain(s, s.parents[q]) else {}
  }

  /** GetObject: a message first, else a field. */
  function ObjectAt(h: Path -> int, s: State, p: Path): Option<Path> {
    if h(p) in s.messages then Some(s.messages[h(p)]) else if h(p) in s.fields then Some(s.fields[h(p)]) else None
  }

  ghost function WithAncestors(h: Path -> int, s: State, p: Path): set<Path>
    requires ParentsShrink(s)
  {
    match ObjectAt(h, s, p) case Some(q) => Chain(s, q) case None => {}
  }

  // ---------------------------------------------------------------------------------- The queries

  /** The queries of the manager once registration is over; results are given by the paths of their objects. */
  class Queries {
    const h: Path -> int
    const s: State
    var subtreeCache: map<Path, set<Path>>
    var ancestorsCache: map<Path, set<Path>>

    constructor (h: Path -> int, s: State)
      requires ParentsShrink(s)
      ensures this.h == h && this.s == s && CachesOk()
    {
      this.h, this.s := h, s;
      subtreeCache, ancestorsCache := map[], map[];
    }

    /** Whatever is cached is what a fresh query would answer. */
    ghost predicate CachesOk()
      reads this
    {
      && ParentsShrink(s)
      && (forall p :: p in subtreeCache ==> subtreeCache[p] == Subtree(s, p))
      && (forall p :: p in ancestorsCache ==> ancestorsCache[p] == WithAncestors(h, s, p))
    }

    method GetMessagesFromSubtree(p: Path) returns (result: set<Path>)
      requires CachesOk()
      modifies this`subtreeCache
      ensures result == Subtree(s, p) && CachesOk()
    {
      if p in subtreeCache { return subtreeCache[p]; }
      result := {};
      if p != [] {
        var items := s.messages.Items;
        while items != {}
          invariant CachesOk() && items <= s.messages.Items
          invariant result == set i | i in s.messages.Items && i !in items && p <= i.1 :: i.1
          decreases |items|
        {
          var item :| item in items;
          var above := Paths.IsAncestorOf(p, item.1);
          if above || p == item.1 { result := result + {item.1}; }
          items := items - {item};
        }
      }
      assert result == Subtree(s, p);
      subtreeCache := subtreeCache[p := result];
    }

    method GetObjectWithAncestors(p: Path) returns (result: set<Path>)
      requires CachesOk()
      modifies this`ancestorsCache
      ensures result == WithAncestors(h, s, p) && CachesOk()
    {
      if p in ancestorsCache { return ancestorsCache[p]; }
      result := {};
      var field := ObjectAt(h, s, p);
      if field.Some? {
        var q := field.value;
        result := {q};
        while q in s.parents
          invariant result + Chain(s, q) == Chain(s, field.value) && q in result
          decreases |q|
        {
          q := s.parents[q];
          result := result + {q};
        }
      }
      ancestorsCache := ancestorsCache[p := result];
    }

    /** The primitive fields under a path, message by message in the order of paths, and by number in a message. */
    method ExpandSelector(p: Path) returns (columns: seq<Path>, ghost keys: seq<(Path, nat)>)
      requires CachesOk()
      modifies this`subtreeCache
      ensures CachesOk() && Columns(h, s, columns, keys) && Increasing(keys)
      ensures forall m, number: nat :: (m, number) in keys <==> m in Subtree(s, p) && IsColumn(h, s, m, number)
    {
      columns, keys := [], [];
      var messages := GetMessagesFromSubtree(p);
      ghost var all := messages;
      while messages != {}
        invariant CachesOk() && messages <= all && Columns(h, s, columns, keys) && Increasing(keys)
        invariant forall m, number: nat :: (m, number) in keys <==>
          m in all && m !in messages && IsColumn(h, s, m, number)
        invariant forall m, k :: m in messages && k in keys ==> Paths.Less(k.0, m)
        decreases |messages|
      {
        LeastExists(messages);
        var m :| m in messages && IsLeast(m, messages);
        messages := messages - {m};
        var more; ghost var moreKeys;
        more, moreKeys := PrimitiveFields(m);
        MessageAppended(h, s, columns, keys, more, moreKeys, m);
        assert forall k :: k in keys + moreKeys <==> k in keys || k in moreKeys;
        columns, keys := columns + more, keys + moreKeys;
      }
    }

    /** The filtered iterator over Fields_, which is ordered by number. */
    method PrimitiveFields(m: Path) returns (columns: seq<Path>, ghost keys: seq<(Path, nat)>)
      ensures Columns(h, s, columns, keys) && Increasing(keys)
      ensures forall q, number: nat :: (q, number) in keys <==> q == m && IsColumn(h, s, m, number)
    {
      hide Before;
      columns, keys := [], [];
      var numbers := set k | k in s.fieldsOf && k.0 == m :: k.1;
      ghost var all := numbers;
      while numbers != {}
        invariant numbers <= all && Columns(h, s, columns, keys) && Increasing(keys)
        invariant forall q, number: nat :: (q, number) in keys <==>
          q == m && number !in numbers && IsColumn(h, s, m, number)
        invariant forall number, k :: number in numbers && k in keys ==> k.1 < number
        decreases |numbers|
      {
        LeastNumberExists(numbers);
        var number :| number in numbers && IsLeastNumber(number, numbers);
        ghost var before := numbers;
        numbers := numbers - {number};
        var path := s.fieldsOf[(m, number)];
        if h(path) in s.primitives {
          ColumnAppended(h, s, columns, keys, path, (m, number));
          columns, keys := columns + [path], keys + [(m, number)];
        }
        assert forall n: nat :: n in before <==> n in numbers || n == number;
      }
    }
  }

  /** A field of the message that is a primitive field. */
  ghost predicate IsColumn(h: Path -> int, s: State, m: Path, number: nat) {
    (m, number) in s.fieldsOf && h(s.fieldsOf[(m, number)]) in s.primitives
  }

  ghost predicate Columns(h: Path -> int, s: State, columns: seq<Path>, keys: seq<(Path, nat)>) {
    && |columns| == |keys|
    && forall i :: 0 <= i < |keys| ==> keys[i] in s.fieldsOf && columns[i] == s.fieldsOf[keys[i]]
  }

  /** By path of the message, then by number. */
  ghost predicate Before(a: (Path, nat), b: (Path, nat)) { Paths.Less(a.0, b.0) || (a.0 == b.0 && a.1 < b.1) }

  ghost predicate Increasing(keys: seq<(Path, nat)>) {
    forall i, j :: 0 <= i < j < |keys| ==> Before(keys[i], keys[j])
  }

  predicate IsLeast(m: Path, all: set<Path>) { forall x :: x in all && x != m ==> Paths.Less(m, x) }

  lemma LeastExists(all: set<Path>)
    requires all != {}
    ensures exists m :: m in all && IsLeast(m, all)
    decreases |all|
  {
    var x :| x in all;
    if all == {x} {
      assert IsLeast(x, all);
    } else {
      assert all - {x} != {};
      LeastExists(all - {x});
      var m :| m in all - {x} && IsLeast(m, all - {x});
      Paths.LessIsTotal(m, x);
      if Paths.Less(x, m) {
        forall y | y in all && y != x ensures Paths.Less(x, y) { if y != m { Paths.LessIsTransitive(x, m, y); } }
        assert IsLeast(x, all);
      } else {
        assert IsLeast(m, all);
      }
    }
  }

  predicate IsLeastNumber(n: nat, all: set<nat>) { forall m :: m in all ==> n <= m }

  lemma LeastNumberExists(all: set<nat>)
    requires all != {}
    ensures exists n :: n in all && IsLeastNumber(n, all)
    decreases |all|
  {
    var x :| x in all;
    var rest := all - {x};
    if rest == {} {
      assert all == {x};
      assert IsLeastNumber(x, all);
    } else {
      LeastNumberExists(rest);
      var n :| n in rest && IsLeastNumber(n, rest);
      forall m | m in all ensures (if x < n then x else n) <= m { assert m == x || m in rest; }
      assert IsLeastNumber(if x < n then x else n, all);
    }
  }

  lemma ColumnAppended(h: Path -> int, s: State, columns: seq<Path>, keys: seq<(Path, nat)>, path: Path, key: (Path,
                       nat))
    requires Columns(h, s, columns, keys) && Increasing(keys) && key in s.fieldsOf && path == s.fieldsOf[key]
    requires forall k :: k in keys ==> k.0 == key.0 && k.1 < key.1
    ensures Columns(h, s, columns + [path], keys + [key]) && Increasing(keys + [key])
    ensures forall k :: k in keys + [key] <==> k in keys || k == key
  {
    forall i, j | 0 <= i < j < |keys + [key]| ensures Before((keys + [key])[i], (keys + [key])[j]) {
      if j == |keys| { assert keys[i] in keys; }
    }
  }

  lemma MessageAppended(h: Path -> int, s: State, columns: seq<Path>, keys: seq<(Path, nat)>, more: seq<Path>,
                        moreKeys: seq<(Path, nat)>, m: Path)
    requires Columns(h, s, columns, keys) && Columns(h, s, more, moreKeys) && Increasing(keys) && Increasing(moreKeys)
    requires forall k :: k in keys ==> Paths.Less(k.0, m)
    requires forall k :: k in moreKeys ==> k.0 == m
    ensures Columns(h, s, columns + more, keys + moreKeys) && Increasing(keys + moreKeys)
  {
    var all := keys + moreKeys;
    forall i, j | 0 <= i < j < |all| ensures Before(all[i], all[j]) {
      if i < |keys| <= j { assert keys[i] in keys && moreKeys[j - |keys|] in moreKeys; }
    }
  }
}
