/** core/vca/userdb.h and the SearchCache of core/vca/sqlite_userdb.cpp. */
module SearchCaches {
  import opened Wrappers
  import opened Orders
  import opened Paths

  datatype SearchResult = SearchResult(dir: Dir, file: string, ext: string)

  /** std::tie(dir, file, ext) < std::tie(o.dir, o.file, o.ext) */
  predicate ResultLess(a: SearchResult, b: SearchResult) {
    || PathLess(a.dir, b.dir)
    || (a.dir == b.dir && StringLess(a.file, b.file))
    || (a.dir == b.dir && a.file == b.file && StringLess(a.ext, b.ext))
  }

  lemma ResultOrder()
    ensures StrictTotal(ResultLess)
  {
    StringOrder();
    PathOrder();
  }

  /** FileContents::operator<: shorter first; between equal lengths, any position where the left
      word is smaller decides, and no position decides the other way. */
  predicate ContentsLess(a: seq<string>, b: seq<string>) {
    if |a| < |b| then true
    else if |a| > |b| then false
    else LessFrom(a, b, 0)
  }

  predicate LessFrom(a: seq<string>, b: seq<string>, i: nat)
    requires |a| == |b| && i <= |a|
    decreases |a| - i
  {
    i < |a| && (StringLess(a[i], b[i]) || LessFrom(a, b, i + 1))
  }

  lemma {:induction false} LessFromSome(a: seq<string>, b: seq<string>, i: nat)
    requires |a| == |b| && i <= |a|
    ensures LessFrom(a, b, i) <==> exists k :: i <= k < |a| && StringLess(a[k], b[k])
    decreases |a| - i
  {
    if i < |a| {
      LessFromSome(a, b, i + 1);
    }
  }

  /** std::map's notion of the same key. */
  predicate Equivalent(a: seq<string>, b: seq<string>) {
    !ContentsLess(a, b) && !ContentsLess(b, a)
  }

  /** A hit always belongs to the exact query, although the order is not asymmetric. */
  lemma EquivalentIsEqual(a: seq<string>, b: seq<string>)
    ensures Equivalent(a, b) <==> a == b
  {
    StringOrder();
    if |a| == |b| {
      LessFromSome(a, b, 0);
      LessFromSome(b, a, 0);
    }
  }

  /** Exactly when two queries are each less than the other, which no order allows. */
  lemma NotAsymmetric(a: seq<string>, b: seq<string>)
    ensures ContentsLess(a, b) && ContentsLess(b, a)
       <==> |a| == |b|
            && exists i, j :: 0 <= i < |a| && 0 <= j < |a| && StringLess(a[i], b[i]) && StringLess(b[j], a[j])
  {
    if |a| == |b| {
      LessFromSome(a, b, 0);
      LessFromSome(b, a, 0);
    }
  }

  lemma SwappedWordsAreBothLess()
    ensures ContentsLess(["a", "b"], ["b", "a"]) && ContentsLess(["b", "a"], ["a", "b"])
  {
    assert StringLess("a", "b");
    assert LessFrom(["b", "a"], ["a", "b"], 1);
  }

  /** No two of the queries are each less than the other. */
  predicate OneOrder(keys: set<seq<string>>) {
    forall a, b :: a in keys && b in keys ==> !(ContentsLess(a, b) && ContentsLess(b, a))
  }

  /** Among such queries the comparison is a strict total order, so that a map of them is what it should be. */
  lemma OneOrderIsTotal(keys: set<seq<string>>, a: seq<string>, b: seq<string>, c: seq<string>)
    requires OneOrder(keys) && a in keys && b in keys && c in keys
    ensures !ContentsLess(a, a) && (a == b || ContentsLess(a, b) || ContentsLess(b, a))
    ensures ContentsLess(a, b) && ContentsLess(b, c) ==> ContentsLess(a, c)
  {
    StringOrder();
    EquivalentIsEqual(a, b);
    if ContentsLess(a, b) && ContentsLess(b, c) && |a| == |b| == |c| {
      LessFromSome(a, b, 0);
      LessFromSome(c, b, 0);
      LessFromSome(a, c, 0);
      var k :| 0 <= k < |a| && StringLess(a[k], b[k]);
      assert !StringLess(c[k], b[k]);
    }
  }

  /** Queries of one word are in one order. */
  lemma SingleWordsInOrder(keys: set<seq<string>>)
    requires forall a :: a in keys ==> |a| <= 1
    ensures OneOrder(keys)
  {
    StringOrder();
    forall a, b | a in keys && b in keys ensures !(ContentsLess(a, b) && ContentsLess(b, a)) {
      NotAsymmetric(a, b);
    }
  }

  datatype Entry = Entry(key: seq<string>, results: seq<SearchResult>)

  /** The map is a set of nodes: a std::map over an order that is not asymmetric may miss a stored
      key, so find and emplace may or may not see a node whose key is equivalent, and two nodes may
      hold the same key. But as long as all keys put in since the map was empty are in one order,
      with the one looked for, they see it. The queue holds iterators, that is, nodes. */
  class SearchCache {
    const maxSize: nat := 32
    var entries: map<nat, Entry>
    var queue: seq<nat>
    var nextNode: nat
    var keysSoFar: set<seq<string>>

    predicate Stores(words: seq<string>)
      reads this
    {
      exists n :: n in entries && entries[n].key == words
    }

    ghost predicate Valid()
      reads this
    {
      && |queue| <= maxSize
      && (forall i, j :: 0 <= i < j < |queue| ==> queue[i] != queue[j])
      && (forall n :: n in queue <==> n in entries)
      && (forall n :: n in entries ==> n < nextNode && entries[n].key in keysSoFar)
    }

    constructor ()
      ensures Valid() && entries == map[]
    {
      entries, queue, nextNode, keysSoFar := map[], [], 0, {};
    }

    method Find(words: seq<string>) returns (r: Option<nat>)
      ensures r.Some? ==> r.value in entries && entries[r.value].key == words
      ensures OneOrder(keysSoFar + {words}) ==> (r.Some? <==> Stores(words))
    {
      var missed: bool := *;
      if missed && !OneOrder(keysSoFar + {words}) {
        return None;
      }
      if n :| n in entries && Equivalent(entries[n].key, words) {
        EquivalentIsEqual(entries[n].key, words);
        return Some(n);
      }
      forall n | n in entries ensures entries[n].key != words {
        EquivalentIsEqual(entries[n].key, words);
      }
      return None;
    }

    method Get(words: seq<string>) returns (r: Option<seq<SearchResult>>)
      ensures r.Some? ==> Entry(words, r.value) in entries.Values
      ensures OneOrder(keysSoFar + {words}) ==> (r.Some? <==> Stores(words))
    {
      var iter := Find(words);
      if iter.Some? {
        return Some(entries[iter.value].results);
      }
      return None;
    }

    /** The nodes kept when an insertion first makes room: all but the oldest of a full queue. */
    ghost function KeptQueue(): seq<nat>
      reads this
    {
      if |queue| == maxSize then queue[1..] else queue
    }

    ghost function KeptEntries(): map<nat, Entry>
      reads this
    {
      if |queue| == maxSize then entries - {queue[0]} else entries
    }

    method Evict()
      requires Valid()
      modifies this
      ensures Valid() && |queue| < maxSize && nextNode == old(nextNode) && keysSoFar == old(keysSoFar)
      ensures queue == old(KeptQueue()) && entries == old(KeptEntries())
      ensures |old(queue)| < 32 ==> queue == old(queue) && entries == old(entries)
      ensures |old(queue)| == 32 ==> queue == old(queue)[1..] && entries == old(entries) - {old(queue)[0]}
    {
      while |queue| >= maxSize
        invariant Valid() && nextNode == old(nextNode) && keysSoFar == old(keysSoFar)
        invariant (queue == old(queue) && entries == old(entries))
               || (|queue| < maxSize && queue == old(KeptQueue()) && entries == old(KeptEntries()))
      {
        entries := entries - {queue[0]};
        queue := queue[1..];
      }
    }

    method Insert(words: seq<string>, results: seq<SearchResult>)
      requires Valid()
      modifies this
      ensures Valid() && Stores(words) && keysSoFar <= old(keysSoFar) + {words}
      ensures || (queue == old(KeptQueue()) && entries == old(KeptEntries())
                  && exists n :: n in entries && entries[n].key == words)
              || (queue == old(KeptQueue()) + [old(nextNode)]
                  && entries == old(KeptEntries())[old(nextNode) := Entry(words, results)])
    {
      Evict();
      var found := Find(words);
      if found.None? {
        Emplace(words, results);
        assert entries[old(nextNode)].key == words;
      } else {
        assert entries[found.value].key == words;
      }
    }

    method Emplace(words: seq<string>, results: seq<SearchResult>)
      requires Valid() && |queue| < maxSize
      modifies this
      ensures Valid() && keysSoFar == old(keysSoFar) + {words}
      ensures queue == old(queue) + [old(nextNode)]
      ensures entries == old(entries)[old(nextNode) := Entry(words, results)]
    {
      assert forall i :: 0 <= i < |queue| ==> queue[i] in entries;
      entries := entries[nextNode := Entry(words, results)];
      keysSoFar := keysSoFar + {words};
      queue := queue + [nextNode];
      nextNode := nextNode + 1;
    }

    method Clear()
      modifies this
      ensures Valid() && entries == map[] && queue == [] && keysSoFar == {}
    {
      entries, queue, keysSoFar := map[], [], {};
    }

    /** As many nodes as queue entries, never more than 32. */
    lemma CacheSize()
      requires Valid()
      ensures |entries| == |queue| <= 32
    {
      Distinct(queue, entries.Keys);
    }
  }

  lemma {:induction false} Distinct(s: seq<nat>, t: set<nat>)
    requires forall i, j :: 0 <= i < j < |s| ==> s[i] != s[j]
    requires forall n :: n in s <==> n in t
    ensures |s| == |t|
  {
    if s == [] {
      assert t == {};
    } else {
      assert s[0] in t;
      assert forall n :: n in s[1..] <==> n in t - {s[0]};
      Distinct(s[1..], t - {s[0]});
    }
  }
}
