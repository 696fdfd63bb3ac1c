/** Duplicate detection (src/audit.rs): files are grouped by key in a hash map, and every group
    yields its pairs. */
module Duplicates {
  import opened Lists

  datatype Keyed = Keyed(key: string, file: string)

  datatype DupePair = DupePair(a: string, b: string)

  // ----- The quadratic definition -----

  function PairsWith(x: Keyed, later: seq<Keyed>): seq<DupePair> {
    if later == [] then []
    else (if later[0].key == x.key then [DupePair(x.file, later[0].file)] else []) + PairsWith(x, later[1..])
  }

  /** Every pair of positions i < j with equal keys. */
  function AllPairs(ks: seq<Keyed>): seq<DupePair> {
    if ks == [] then [] else PairsWith(ks[0], ks[1..]) + AllPairs(ks[1..])
  }

  // ----- Groups -----

  function Group(ks: seq<Keyed>, key: string): seq<string> {
    if ks == [] then [] else (if ks[0].key == key then [ks[0].file] else []) + Group(ks[1..], key)
  }

  function Row(a: string, rest: seq<string>): seq<DupePair> {
    if rest == [] then [] else [DupePair(a, rest[0])] + Row(a, rest[1..])
  }

  function GroupPairs(g: seq<string>): seq<DupePair> {
    if g == [] then [] else Row(g[0], g[1..]) + GroupPairs(g[1..])
  }

  /** The quadratic pairs whose key is in done. */
  function PairsAmong(ks: seq<Keyed>, done: set<string>): seq<DupePair> {
    if ks == [] then []
    else (if ks[0].key in done then PairsWith(ks[0], ks[1..]) else []) + PairsAmong(ks[1..], done)
  }

  function KeysOf(ks: seq<Keyed>): set<string> {
    set k | k in ks :: k.key
  }

  lemma {:induction false} GroupAppend(ks: seq<Keyed>, more: seq<Keyed>, key: string)
    ensures Group(ks + more, key) == Group(ks, key) + Group(more, key)
  {
    if ks == [] {
      assert ks + more == more;
    } else {
      assert (ks + more)[1..] == ks[1..] + more;
      GroupAppend(ks[1..], more, key);
    }
  }

  lemma GroupStep(ks: seq<Keyed>, i: nat, key: string)
    requires i < |ks|
    ensures Group(ks[..i + 1], key) ==
              if ks[i].key == key then Group(ks[..i], key) + [ks[i].file] else Group(ks[..i], key)
  {
    assert ks[..i + 1] == ks[..i] + [ks[i]];
    GroupAppend(ks[..i], [ks[i]], key);
    assert [ks[i]][1..] == [];
  }

  lemma {:induction false} GroupMember(ks: seq<Keyed>, key: string)
    ensures Group(ks, key) != [] <==> key in KeysOf(ks)
  {
    if ks != [] {
      GroupMember(ks[1..], key);
      assert forall k :: k in ks <==> k == ks[0] || k in ks[1..];
    }
  }

  lemma {:induction false} PairsAreRow(x: Keyed, later: seq<Keyed>)
    ensures PairsWith(x, later) == Row(x.file, Group(later, x.key))
  {
    if later != [] {
      var rest := Group(later[1..], x.key);
      PairsAreRow(x, later[1..]);
      if later[0].key == x.key {
        assert Group(later, x.key)[1..] == rest;
      } else {
        assert Group(later, x.key) == rest;
        assert [] + PairsWith(x, later[1..]) == PairsWith(x, later[1..]);
      }
    }
  }

  function OwnPairs(ks: seq<Keyed>): seq<DupePair>
    requires ks != []
  {
    PairsWith(ks[0], ks[1..])
  }

  lemma PairsAmongHead(ks: seq<Keyed>, done: set<string>)
    requires ks != []
    ensures multiset(PairsAmong(ks, done)) ==
              multiset(if ks[0].key in done then OwnPairs(ks) else []) + multiset(PairsAmong(ks[1..], done))
  {
  }

  lemma GroupPairsHead(ks: seq<Keyed>, key: string)
    requires ks != []
    ensures multiset(GroupPairs(Group(ks, key))) ==
              multiset(if ks[0].key == key then OwnPairs(ks) else [])
              + multiset(GroupPairs(Group(ks[1..], key)))
  {
    var rest := Group(ks[1..], key);
    PairsAreRow(ks[0], ks[1..]);
    if ks[0].key == key {
      assert Group(ks, key)[1..] == rest;
    } else {
      assert Group(ks, key) == rest;
    }
  }

  /** One more finished group adds exactly its pairs. */
  lemma {:induction false} FinishGroup(ks: seq<Keyed>, done: set<string>, key: string)
    requires key !in done
    ensures multiset(PairsAmong(ks, done + {key})) ==
              multiset(PairsAmong(ks, done)) + multiset(GroupPairs(Group(ks, key)))
  {
    if ks != [] {
      FinishGroup(ks[1..], done, key);
      PairsAmongHead(ks, done);
      PairsAmongHead(ks, done + {key});
      GroupPairsHead(ks, key);
    }
  }

  lemma {:induction false} AllKeysDone(ks: seq<Keyed>, done: set<string>)
    requires KeysOf(ks) <= done
    ensures PairsAmong(ks, done) == AllPairs(ks)
  {
    if ks != [] {
      assert ks[0].key in KeysOf(ks);
      forall k | k in KeysOf(ks[1..])
        ensures k in KeysOf(ks)
      {
      }
      AllKeysDone(ks[1..], done);
    }
  }

  lemma {:induction false} NoKeysDone(ks: seq<Keyed>)
    ensures PairsAmong(ks, {}) == []
  {
    if ks != [] {
      NoKeysDone(ks[1..]);
    }
  }

  // ----- The detection -----

  lemma KeysStep(ks: seq<Keyed>, i: nat)
    requires i < |ks|
    ensures KeysOf(ks[..i + 1]) == KeysOf(ks[..i]) + {ks[i].key}
  {
    assert ks[..i + 1] == ks[..i] + [ks[i]];
    assert forall k :: k in ks[..i + 1] <==> k in ks[..i] || k == ks[i];
  }

  ghost predicate IsGrouping(groups: map<string, seq<string>>, ks: seq<Keyed>) {
    groups.Keys == KeysOf(ks) && forall key :: key in groups ==> groups[key] == Group(ks, key)
  }

  function Extended(groups: map<string, seq<string>>, k: Keyed): map<string, seq<string>> {
    groups[k.key := (if k.key in groups then groups[k.key] else []) + [k.file]]
  }

  lemma GroupingAt(groups: map<string, seq<string>>, ks: seq<Keyed>, i: nat, key: string)
    requires i < |ks| && IsGrouping(groups, ks[..i]) && key in Extended(groups, ks[i])
    ensures Extended(groups, ks[i])[key] == Group(ks[..i + 1], key)
  {
    GroupMember(ks[..i], key);
    GroupStep(ks, i, key);
  }

  lemma GroupingStep(groups: map<string, seq<string>>, ks: seq<Keyed>, i: nat)
    requires i < |ks| && IsGrouping(groups, ks[..i])
    ensures IsGrouping(Extended(groups, ks[i]), ks[..i + 1])
  {
    KeysStep(ks, i);
    forall key | key in Extended(groups, ks[i])
      ensures Extended(groups, ks[i])[key] == Group(ks[..i + 1], key)
    {
      GroupingAt(groups, ks, i, key);
    }
  }

  method GroupByKey(ks: seq<Keyed>) returns (groups: map<string, seq<string>>)
    ensures IsGrouping(groups, ks)
  {
    groups := map[];
    for i := 0 to |ks|
      invariant IsGrouping(groups, ks[..i])
    {
      GroupingStep(groups, ks, i);
      var k := ks[i];
      var group := if k.key in groups then groups[k.key] else [];
      groups := groups[k.key := group + [k.file]];
    }
    assert ks[..|ks|] == ks;
  }

  method PairUp(group: seq<string>) returns (out: seq<DupePair>)
    ensures out == GroupPairs(group)
  {
    out := [];
    for i := 0 to |group|
      invariant out + GroupPairs(group[i..]) == GroupPairs(group)
    {
      ghost var start := out;
      assert group[i..][1..] == group[i + 1..];
      for j := i + 1 to |group|
        invariant out + Row(group[i], group[j..]) == start + Row(group[i], group[i + 1..])
      {
        assert group[j..][1..] == group[j + 1..];
        assert out + ([DupePair(group[i], group[j])] + Row(group[i], group[j + 1..])) ==
               out + [DupePair(group[i], group[j])] + Row(group[i], group[j + 1..]);
        out := out + [DupePair(group[i], group[j])];
      }
      assert out + [] == out;
      assert start + (Row(group[i], group[i + 1..]) + GroupPairs(group[i + 1..])) ==
             start + Row(group[i], group[i + 1..]) + GroupPairs(group[i + 1..]);
    }
    assert out + [] == out;
  }

  /** Whatever order the hash map iterates in, the reported pairs are the quadratic ones. */
  method DetectDuplicates(ks: seq<Keyed>) returns (out: seq<DupePair>)
    ensures multiset(out) == multiset(AllPairs(ks))
  {
    var groups := GroupByKey(ks);
    out := [];
    var left := groups.Keys;
    NoKeysDone(ks);
    assert groups.Keys - left == {};
    while left != {}
      invariant left <= groups.Keys
      invariant multiset(out) == multiset(PairsAmong(ks, groups.Keys - left))
      decreases |left|
    {
      var key :| key in left;
      var group := groups[key];
      FinishKey(ks, groups.Keys, left, key, out, group);
      if |group| > 1 {
        var found := PairUp(group);
        out := out + found;
      }
      left := left - {key};
    }
    AllKeysDone(ks, groups.Keys - left);
  }

  lemma FinishKey(ks: seq<Keyed>, keys: set<string>, left: set<string>, key: string,
                  out: seq<DupePair>, group: seq<string>)
    requires left <= keys && key in left && group == Group(ks, key)
    requires multiset(out) == multiset(PairsAmong(ks, keys - left))
    ensures multiset(if |group| > 1 then out + GroupPairs(group) else out) ==
              multiset(PairsAmong(ks, keys - (left - {key})))
  {
    FinishGroup(ks, keys - left, key);
    assert keys - left + {key} == keys - (left - {key});
    SmallGroup(group);
  }

  lemma SmallGroup(g: seq<string>)
    ensures |g| <= 1 ==> GroupPairs(g) == []
  {
  }

  // ----- What is reported -----

  lemma {:induction false} PairsWithExact(x: Keyed, later: seq<Keyed>, p: DupePair)
    ensures p in PairsWith(x, later) <==>
              exists j :: 0 <= j < |later| && later[j].key == x.key && p == DupePair(x.file, later[j].file)
  {
    if later != [] {
      PairsWithExact(x, later[1..], p);
      assert forall j :: 0 < j < |later| ==> later[j] == later[1..][j - 1];
      if exists j :: 0 <= j < |later[1..]| && later[1..][j].key == x.key && p == DupePair(x.file, later[1..][j].file) {
        var j :| 0 <= j < |later[1..]| && later[1..][j].key == x.key && p == DupePair(x.file, later[1..][j].file);
        assert later[j + 1].key == x.key;
      }
    }
  }

  ghost predicate Matches(ks: seq<Keyed>, i: nat, j: nat, p: DupePair) {
    i < j < |ks| && ks[i].key == ks[j].key && p == DupePair(ks[i].file, ks[j].file)
  }

  /** Exactly the position pairs with equal keys are reported. */
  lemma {:induction false} AllPairsExact(ks: seq<Keyed>, p: DupePair)
    ensures p in AllPairs(ks) <==> exists i: nat, j: nat :: Matches(ks, i, j, p)
  {
    if ks != [] {
      var x, rest := ks[0], ks[1..];
      PairsWithExact(x, rest, p);
      AllPairsExact(rest, p);
      if p in PairsWith(x, rest) {
        var j :| 0 <= j < |rest| && rest[j].key == x.key && p == DupePair(x.file, rest[j].file);
        assert Matches(ks, 0, j + 1, p);
      }
      if p in AllPairs(rest) {
        var i: nat, j: nat :| Matches(rest, i, j, p);
        assert Matches(ks, i + 1, j + 1, p);
      }
      forall i: nat, j: nat | Matches(ks, i, j, p)
        ensures p in AllPairs(ks)
      {
        if i == 0 {
          assert rest[j - 1] == ks[j];
        } else {
          assert Matches(rest, i - 1, j - 1, p);
        }
      }
    }
  }

  predicate DistinctFiles(ks: seq<Keyed>) {
    forall i, j :: 0 <= i < j < |ks| ==> ks[i].file != ks[j].file
  }

  /** With distinct files no pair is reported twice. */
  lemma {:induction false} AllPairsOnce(ks: seq<Keyed>, p: DupePair)
    requires DistinctFiles(ks)
    ensures multiset(AllPairs(ks))[p] <= 1
  {
    if ks != [] {
      var x, rest := ks[0], ks[1..];
      AllPairsOnce(rest, p);
      PairsWithOnce(x, rest, p);
      AllPairsExact(rest, p);
      PairsWithExact(x, rest, p);
      if p in AllPairs(rest) {
        var i: nat, j: nat :| Matches(rest, i, j, p);
        assert rest[i] == ks[i + 1] && p.a == ks[i + 1].file != x.file;
      }
      assert p in PairsWith(x, rest) ==> p in multiset(PairsWith(x, rest));
      assert multiset(AllPairs(ks))[p] == multiset(PairsWith(x, rest))[p] + multiset(AllPairs(rest))[p];
    }
  }

  lemma {:induction false} PairsWithOnce(x: Keyed, later: seq<Keyed>, p: DupePair)
    requires DistinctFiles(later)
    ensures multiset(PairsWith(x, later))[p] <= 1
  {
    if later != [] {
      var rest := later[1..];
      PairsWithOnce(x, rest, p);
      PairsWithExact(x, rest, p);
      if p in PairsWith(x, rest) {
        var j :| 0 <= j < |rest| && rest[j].key == x.key && p == DupePair(x.file, rest[j].file);
        assert rest[j] == later[j + 1] && p.b != later[0].file;
      }
      var head := if later[0].key == x.key then [DupePair(x.file, later[0].file)] else [];
      assert multiset(PairsWith(x, later))[p] == multiset(head)[p] + multiset(PairsWith(x, rest))[p];
    }
  }

  // ----- How many -----

  function DistinctKeys(ks: seq<Keyed>): (r: seq<string>)
    ensures forall key :: key in r <==> key in KeysOf(ks)
    ensures forall i, j :: 0 <= i < j < |r| ==> r[i] != r[j]
  {
    if ks == [] then []
    else
      var init, last := ks[..|ks| - 1], ks[|ks| - 1].key;
      var r := DistinctKeys(init);
      assert ks == init + [ks[|ks| - 1]];
      if last in r then r else r + [last]
  }

  function Choose2(n: nat): nat {
    n * (n - 1) / 2
  }

  function SumOverClasses(ks: seq<Keyed>, keys: seq<string>): nat {
    if keys == [] then 0
    else SumOverClasses(ks, keys[..|keys| - 1]) + Choose2(|Group(ks, keys[|keys| - 1])|)
  }

  lemma {:induction false} RowLength(a: string, rest: seq<string>)
    ensures |Row(a, rest)| == |rest|
  {
    if rest != [] {
      RowLength(a, rest[1..]);
    }
  }

  lemma {:induction false} GroupPairsLength(g: seq<string>)
    ensures |GroupPairs(g)| == Choose2(|g|)
  {
    if g != [] {
      var n := |g| - 1;
      RowLength(g[0], g[1..]);
      GroupPairsLength(g[1..]);
      assert (n + 1) * n == n * (n - 1) + 2 * n;
    }
  }

  lemma {:induction false} ClassesLength(ks: seq<Keyed>, keys: seq<string>)
    requires forall i, j :: 0 <= i < j < |keys| ==> keys[i] != keys[j]
    ensures |PairsAmong(ks, set k | k in keys)| == SumOverClasses(ks, keys)
  {
    if keys == [] {
      NoKeysDone(ks);
      assert (set k | k in keys) == {};
    } else {
      var init, last := keys[..|keys| - 1], keys[|keys| - 1];
      var done := set k | k in init;
      ClassesLength(ks, init);
      SetOfSnoc(init, last, keys);
      FinishGroup(ks, done, last);
      GroupPairsLength(Group(ks, last));
      SameSize(PairsAmong(ks, done + {last}), PairsAmong(ks, done) + GroupPairs(Group(ks, last)));
    }
  }

  lemma SetOfSnoc(init: seq<string>, last: string, keys: seq<string>)
    requires keys == init + [last]
    ensures (set k | k in keys) == (set k | k in init) + {last}
  {
    assert forall k :: k in keys <==> k in init || k == last;
  }

  /** The number of reports: each class of k files contributes k(k-1)/2. */
  lemma CountByClass(ks: seq<Keyed>)
    ensures |AllPairs(ks)| == SumOverClasses(ks, DistinctKeys(ks))
  {
    var keys := DistinctKeys(ks);
    ClassesLength(ks, keys);
    AllKeysDone(ks, set k | k in keys);
  }

  // ----- Order of the files -----

  /** The reports with the two sides of each pair swappable. */
  function Unordered(ps: seq<DupePair>): multiset<multiset<string>> {
    if ps == [] then multiset{} else multiset{multiset{ps[0].a, ps[0].b}} + Unordered(ps[1..])
  }

  lemma {:induction false} UnorderedAppend(ps: seq<DupePair>, qs: seq<DupePair>)
    ensures Unordered(ps + qs) == Unordered(ps) + Unordered(qs)
  {
    if ps == [] {
      assert ps + qs == qs;
    } else {
      assert (ps + qs)[1..] == ps[1..] + qs;
      UnorderedAppend(ps[1..], qs);
    }
  }

  function Cross(x: Keyed, ks: seq<Keyed>): multiset<multiset<string>> {
    Unordered(PairsWith(x, ks))
  }

  function Single(x: Keyed, y: Keyed): multiset<multiset<string>> {
    if x.key == y.key then multiset{multiset{x.file, y.file}} else multiset{}
  }

  lemma SingleSymmetric(x: Keyed, y: Keyed)
    ensures Single(x, y) == Single(y, x)
  {
    assert multiset{x.file, y.file} == multiset{y.file, x.file};
  }

  lemma CrossCons(x: Keyed, y: Keyed, ks: seq<Keyed>)
    ensures Cross(x, [y] + ks) == Single(x, y) + Cross(x, ks)
  {
    assert ([y] + ks)[1..] == ks;
    var head := if y.key == x.key then [DupePair(x.file, y.file)] else [];
    UnorderedAppend(head, PairsWith(x, ks));
    if head != [] {
      assert head[1..] == [];
    }
  }

  lemma {:induction false} CrossInsert(y: Keyed, a: seq<Keyed>, x: Keyed, b: seq<Keyed>)
    ensures Cross(y, a + [x] + b) == Single(y, x) + Cross(y, a + b)
  {
    HeadFirst(a, x, b);
    if a == [] {
      CrossCons(y, x, b);
    } else {
      CrossCons(y, a[0], a[1..] + [x] + b);
      CrossCons(y, a[0], a[1..] + b);
      CrossInsert(y, a[1..], x, b);
    }
  }

  lemma AllPairsCons(x: Keyed, ks: seq<Keyed>)
    ensures Unordered(AllPairs([x] + ks)) == Cross(x, ks) + Unordered(AllPairs(ks))
  {
    assert ([x] + ks)[1..] == ks;
    UnorderedAppend(PairsWith(x, ks), AllPairs(ks));
  }

  /** A file contributes its pairs wherever it stands. */
  lemma {:induction false} AllPairsInsert(a: seq<Keyed>, x: Keyed, b: seq<Keyed>)
    ensures Unordered(AllPairs(a + [x] + b)) == Cross(x, a + b) + Unordered(AllPairs(a + b))
  {
    HeadFirst(a, x, b);
    if a == [] {
      AllPairsCons(x, b);
    } else {
      var y := a[0];
      AllPairsCons(y, a[1..] + [x] + b);
      AllPairsCons(y, a[1..] + b);
      AllPairsInsert(a[1..], x, b);
      CrossInsert(y, a[1..], x, b);
      CrossCons(x, y, a[1..] + b);
      SingleSymmetric(x, y);
    }
  }

  lemma {:induction false} CrossPermuted(x: Keyed, ks: seq<Keyed>, ls: seq<Keyed>)
    requires multiset(ks) == multiset(ls)
    ensures Cross(x, ks) == Cross(x, ls)
  {
    if ks == [] {
      SameMembers(ks, ls);
    } else {
      var a, b := Locate(ks, ls);
      CrossPermuted(x, ks[1..], a + b);
      CrossInsert(x, a, ks[0], b);
      assert ks == [ks[0]] + ks[1..];
      CrossCons(x, ks[0], ks[1..]);
    }
  }

  /** Up to swapping the sides of a pair, the reports do not depend on the order of the files. */
  lemma {:induction false} AllPairsPermuted(ks: seq<Keyed>, ls: seq<Keyed>)
    requires multiset(ks) == multiset(ls)
    ensures Unordered(AllPairs(ks)) == Unordered(AllPairs(ls))
  {
    if ks == [] {
      SameMembers(ks, ls);
    } else {
      var a, b := Locate(ks, ls);
      AllPairsPermuted(ks[1..], a + b);
      CrossPermuted(ks[0], ks[1..], a + b);
      AllPairsInsert(a, ks[0], b);
      assert ks == [ks[0]] + ks[1..];
      AllPairsCons(ks[0], ks[1..]);
    }
  }

  lemma UnorderedOne(p: DupePair)
    ensures Unordered([p]) == multiset{multiset{p.a, p.b}}
  {
    assert [p][1..] == [];
  }

  lemma {:induction false} UnorderedPermuted(ps: seq<DupePair>, qs: seq<DupePair>)
    requires multiset(ps) == multiset(qs)
    ensures Unordered(ps) == Unordered(qs)
  {
    if ps == [] {
      assert |qs| == |multiset(qs)| == 0;
    } else {
      var a, b := Locate(ps, qs);
      UnorderedPermuted(ps[1..], a + b);
      UnorderedAppend(a, b);
      UnorderedAppend(a + [ps[0]], b);
      UnorderedAppend(a, [ps[0]]);
      UnorderedOne(ps[0]);
    }
  }
}
