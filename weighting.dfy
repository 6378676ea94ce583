/**
 * The weight propagation of `WeightedCallGraphPass::print`
 * (lib/callgraphs/CallGraph.cpp:203-258): the hotspot frequencies read from
 * `(name, frequency)` pairs, and the bounded two-hop score of every function.
 */
module WeightedCallGraph {
  import opened Wrappers
  import opened CallGraphTypes

  // ---------------------------------------------------------------------------
  // Hotspot frequencies (lines 206-219)
  // ---------------------------------------------------------------------------

  /** `bugFrequency`: hotspot file name to bug frequency. */
  type FreqMap = map<string, nat>

  /** `std::map::insert` of every pair in order: a name already present keeps its entry. */
  function FreqFold(pairs: seq<(string, nat)>): FreqMap
  {
    if pairs == [] then map[]
    else
      var r0 := FreqFold(pairs[..|pairs| - 1]);
      var p := pairs[|pairs| - 1];
      if p.0 in r0 then r0 else r0[p.0 := p.1]
  }

  /** The names the pairs mention. */
  function Names(pairs: seq<(string, nat)>): set<string>
  {
    set i | 0 <= i < |pairs| :: pairs[i].0
  }

  /** Pair `i` is the first one naming its file. */
  predicate FirstOccurrence(pairs: seq<(string, nat)>, i: nat)
    requires i < |pairs|
  {
    forall j :: 0 <= j < i ==> pairs[j].0 != pairs[i].0
  }

  /** The hotspot map has exactly one entry per name mentioned. */
  lemma {:induction false} FreqFoldKeys(pairs: seq<(string, nat)>)
    ensures FreqFold(pairs).Keys == Names(pairs)
  {
    if pairs != [] {
      var prefix := pairs[..|pairs| - 1];
      FreqFoldKeys(prefix);
      assert pairs == prefix + [pairs[|pairs| - 1]];
      forall x | x in Names(pairs) ensures x in Names(prefix) + {pairs[|pairs| - 1].0} {
        var i :| 0 <= i < |pairs| && pairs[i].0 == x;
        if i < |pairs| - 1 {
          assert prefix[i].0 == x;
        }
      }
      forall x | x in Names(prefix) ensures x in Names(pairs) {
        var i :| 0 <= i < |prefix| && prefix[i].0 == x;
        assert pairs[i].0 == x;
      }
    }
  }

  /** A repeated hotspot name keeps the frequency of its first line. */
  lemma {:induction false} FreqFoldFirst(pairs: seq<(string, nat)>, i: nat)
    requires i < |pairs| && FirstOccurrence(pairs, i)
    ensures pairs[i].0 in FreqFold(pairs) && FreqFold(pairs)[pairs[i].0] == pairs[i].1
  {
    var prefix := pairs[..|pairs| - 1];
    FreqFoldKeys(prefix);
    if i == |pairs| - 1 {
      forall j | 0 <= j < |prefix| ensures prefix[j].0 != pairs[i].0 {
        assert prefix[j] == pairs[j];
      }
      assert pairs[i].0 !in Names(prefix);
    } else {
      assert FirstOccurrence(prefix, i) by {
        forall j | 0 <= j < i ensures prefix[j].0 != prefix[i].0 {
          assert pairs[j].0 != pairs[i].0;
        }
      }
      FreqFoldFirst(prefix, i);
    }
  }

  /**
   * Lines 203-219 after the file has been read: `hotspots` is `None` when the
   * file could not be opened, otherwise the `(name, frequency)` pair of each
   * line, in order.
   */
  method ReadFrequencies(hotspots: Option<seq<(string, nat)>>) returns (freq: FreqMap)
    ensures hotspots.None? ==> freq == map[]
    ensures hotspots.Some? ==> freq == FreqFold(hotspots.value)
  {
    freq := map[];
    if hotspots.Some? {
      var lines := hotspots.value;
      var i := 0;
      while i < |lines|
        invariant 0 <= i <= |lines|
        invariant freq == FreqFold(lines[..i])
      {
        var p := lines[i];
        assert lines[..i + 1][..i] == lines[..i];
        if p.0 !in freq {
          freq := freq[p.0 := p.1];
        }
        i := i + 1;
      }
      assert lines[..i] == lines;
    }
  }

  // ---------------------------------------------------------------------------
  // The two-hop score (lines 222-258)
  // ---------------------------------------------------------------------------

  /** `bugFrequency.find(name)`: the frequency of a hotspot file, 0 for any other file. */
  function Freq(freq: FreqMap, name: string): nat
  {
    if name in freq then freq[name] else 0
  }

  /** Lines 243-251: the frequencies of the files of the targets of `rs` that have an entry. */
  function Depth2(t: Table, freq: FreqMap, rs: seq<CallInfo>): nat
  {
    if rs == [] then 0
    else
      var g := rs[|rs| - 1].callee;
      Depth2(t, freq, rs[..|rs| - 1]) + (if g in t then Freq(freq, t[g].filename) else 0)
  }

  /** Lines 230-255: for each target of `rs` with an entry, twice its file's frequency plus its own targets' `Depth2`. */
  function Depth1(t: Table, freq: FreqMap, rs: seq<CallInfo>): nat
  {
    if rs == [] then 0
    else
      var g := rs[|rs| - 1].callee;
      Depth1(t, freq, rs[..|rs| - 1])
      + (if g in t then 2 * Freq(freq, t[g].filename) + Depth2(t, freq, t[g].directCalls) else 0)
  }

  /** The score the loop of lines 222-258 adds to function `f`'s `bugweight`. */
  function Score(t: Table, freq: FreqMap, f: FuncId): nat
    requires f in t
  {
    3 * Freq(freq, t[f].filename) + Depth1(t, freq, t[f].directCalls)
  }

  /** The body of the loop of lines 222-258 for function `f`, accumulating into a copy of its `bugweight`. */
  method ComputeBugWeight(t: Table, freq: FreqMap, f: FuncId) returns (bugweight: nat)
    requires f in t
    ensures bugweight == t[f].bugweight + Score(t, freq, f)
  {
    var fi := t[f];
    bugweight := fi.bugweight;
    if fi.filename in freq {
      bugweight := bugweight + 3 * freq[fi.filename];
    }
    var i := 0;
    while i < |fi.directCalls|
      invariant 0 <= i <= |fi.directCalls|
      invariant bugweight == fi.bugweight + 3 * Freq(freq, fi.filename) + Depth1(t, freq, fi.directCalls[..i])
    {
      var ci := fi.directCalls[i];
      assert fi.directCalls[..i + 1][..i] == fi.directCalls[..i];
      if ci.callee in t {
        var found := t[ci.callee];
        if found.filename in freq {
          bugweight := bugweight + 2 * freq[found.filename];
        }
        var j := 0;
        while j < |found.directCalls|
          invariant 0 <= j <= |found.directCalls|
          invariant bugweight == fi.bugweight + 3 * Freq(freq, fi.filename) + Depth1(t, freq, fi.directCalls[..i])
                                 + 2 * Freq(freq, found.filename) + Depth2(t, freq, found.directCalls[..j])
        {
          var ci2 := found.directCalls[j];
          assert found.directCalls[..j + 1][..j] == found.directCalls[..j];
          if ci2.callee in t {
            var found2 := t[ci2.callee];
            if found2.filename in freq {
              bugweight := bugweight + freq[found2.filename];
            }
          }
          j := j + 1;
        }
        assert found.directCalls[..j] == found.directCalls;
      }
      i := i + 1;
    }
    assert fi.directCalls[..i] == fi.directCalls;
  }

  // ---------------------------------------------------------------------------
  // The score as a sum over paths of at most two calls
  // ---------------------------------------------------------------------------

  /** A function reached from the scored one, with the factor its file's frequency counts with. */
  datatype Hop = Hop(factor: nat, target: FuncId)

  /** The functions one call further along records `rs`, each with factor 1. */
  function SecondHops(t: Table, rs: seq<CallInfo>): seq<Hop>
  {
    if rs == [] then []
    else
      var g := rs[|rs| - 1].callee;
      SecondHops(t, rs[..|rs| - 1]) + (if g in t then [Hop(1, g)] else [])
  }

  /** The targets of records `rs` with factor 2, each followed by its own targets with factor 1. */
  function FirstHops(t: Table, rs: seq<CallInfo>): seq<Hop>
  {
    if rs == [] then []
    else
      var g := rs[|rs| - 1].callee;
      FirstHops(t, rs[..|rs| - 1]) + (if g in t then [Hop(2, g)] + SecondHops(t, t[g].directCalls) else [])
  }

  /** Every path of at most two recorded calls from `f` through functions with an entry: factor 3, 2 or 1 by length. */
  function Paths(t: Table, f: FuncId): seq<Hop>
    requires f in t
  {
    [Hop(3, f)] + FirstHops(t, t[f].directCalls)
  }

  predicate AllInTable(t: Table, hops: seq<Hop>)
  {
    forall i :: 0 <= i < |hops| ==> hops[i].target in t
  }

  /** The sum over hops of the factor times the frequency of the hop's file. */
  function PathSum(t: Table, freq: FreqMap, hops: seq<Hop>): nat
    requires AllInTable(t, hops)
  {
    if hops == [] then 0
    else
      var h := hops[|hops| - 1];
      PathSum(t, freq, hops[..|hops| - 1]) + h.factor * Freq(freq, t[h.target].filename)
  }

  lemma {:induction false} PathSumAppend(t: Table, freq: FreqMap, a: seq<Hop>, b: seq<Hop>)
    requires AllInTable(t, a) && AllInTable(t, b)
    ensures AllInTable(t, a + b)
    ensures PathSum(t, freq, a + b) == PathSum(t, freq, a) + PathSum(t, freq, b)
  {
    assert AllInTable(t, a + b) by {
      forall i | 0 <= i < |a + b| ensures (a + b)[i].target in t {
        if i >= |a| {
          assert (a + b)[i] == b[i - |a|];
        }
      }
    }
    if b != [] {
      var b0 := b[..|b| - 1];
      assert AllInTable(t, b0) by {
        forall i | 0 <= i < |b0| ensures b0[i].target in t {
          assert b0[i] == b[i];
        }
      }
      PathSumAppend(t, freq, a, b0);
      assert (a + b)[..|a + b| - 1] == a + b0;
    } else {
      assert a + b == a;
    }
  }

  lemma {:induction false} SecondHopsSum(t: Table, freq: FreqMap, rs: seq<CallInfo>)
    ensures AllInTable(t, SecondHops(t, rs))
    ensures forall i :: 0 <= i < |SecondHops(t, rs)| ==> SecondHops(t, rs)[i].factor == 1
    ensures PathSum(t, freq, SecondHops(t, rs)) == Depth2(t, freq, rs)
  {
    if rs != [] {
      var g := rs[|rs| - 1].callee;
      SecondHopsSum(t, freq, rs[..|rs| - 1]);
      var a := SecondHops(t, rs[..|rs| - 1]);
      if g in t {
        PathSumAppend(t, freq, a, [Hop(1, g)]);
        assert PathSum(t, freq, [Hop(1, g)]) == Freq(freq, t[g].filename) by {
          assert [Hop(1, g)][..0] == [];
        }
        forall i | 0 <= i < |a + [Hop(1, g)]| ensures (a + [Hop(1, g)])[i].factor == 1 {
          if i < |a| {
            assert (a + [Hop(1, g)])[i] == a[i];
          }
        }
      } else {
        assert SecondHops(t, rs) == a + [];
        assert a + [] == a;
      }
    }
  }

  lemma {:induction false} FirstHopsSum(t: Table, freq: FreqMap, rs: seq<CallInfo>)
    ensures AllInTable(t, FirstHops(t, rs))
    ensures PathSum(t, freq, FirstHops(t, rs)) == Depth1(t, freq, rs)
  {
    if rs != [] {
      var g := rs[|rs| - 1].callee;
      FirstHopsSum(t, freq, rs[..|rs| - 1]);
      var a := FirstHops(t, rs[..|rs| - 1]);
      if g in t {
        var s := SecondHops(t, t[g].directCalls);
        SecondHopsSum(t, freq, t[g].directCalls);
        assert AllInTable(t, [Hop(2, g)]);
        PathSumAppend(t, freq, [Hop(2, g)], s);
        assert PathSum(t, freq, [Hop(2, g)]) == 2 * Freq(freq, t[g].filename) by {
          assert [Hop(2, g)][..0] == [];
        }
        PathSumAppend(t, freq, a, [Hop(2, g)] + s);
      } else {
        assert FirstHops(t, rs) == a + [];
        assert a + [] == a;
      }
    }
  }

  /**
   * The score is the sum, over every path of at most two recorded calls from
   * `f` through functions with an entry, of 3, 2 or 1 (by path length) times
   * the frequency of the file of the function the path ends at.
   */
  lemma ScoreIsPathSum(t: Table, freq: FreqMap, f: FuncId)
    requires f in t
    ensures AllInTable(t, Paths(t, f))
    ensures Score(t, freq, f) == PathSum(t, freq, Paths(t, f))
  {
    FirstHopsSum(t, freq, t[f].directCalls);
    assert AllInTable(t, [Hop(3, f)]);
    PathSumAppend(t, freq, [Hop(3, f)], FirstHops(t, t[f].directCalls));
    assert PathSum(t, freq, [Hop(3, f)]) == 3 * Freq(freq, t[f].filename) by {
      assert [Hop(3, f)][..0] == [];
    }
  }

  // ---------------------------------------------------------------------------
  // What the frequencies contribute
  // ---------------------------------------------------------------------------

  /** `freq` gives each file of the table at most the frequency `big` gives it. */
  predicate FreqBelow(t: Table, freq: FreqMap, big: FreqMap)
  {
    forall k :: k in t ==> Freq(freq, t[k].filename) <= Freq(big, t[k].filename)
  }

  lemma {:induction false} Depth2Monotone(t: Table, freq: FreqMap, big: FreqMap, rs: seq<CallInfo>)
    requires FreqBelow(t, freq, big)
    ensures Depth2(t, freq, rs) <= Depth2(t, big, rs)
  {
    if rs != [] {
      Depth2Monotone(t, freq, big, rs[..|rs| - 1]);
    }
  }

  lemma {:induction false} Depth1Monotone(t: Table, freq: FreqMap, big: FreqMap, rs: seq<CallInfo>)
    requires FreqBelow(t, freq, big)
    ensures Depth1(t, freq, rs) <= Depth1(t, big, rs)
  {
    if rs != [] {
      Depth1Monotone(t, freq, big, rs[..|rs| - 1]);
      var g := rs[|rs| - 1].callee;
      if g in t {
        Depth2Monotone(t, freq, big, t[g].directCalls);
      }
    }
  }

  /** Raising the frequency of any file never lowers a score. */
  lemma ScoreMonotone(t: Table, freq: FreqMap, big: FreqMap, f: FuncId)
    requires f in t && FreqBelow(t, freq, big)
    ensures Score(t, freq, f) <= Score(t, big, f)
  {
    Depth1Monotone(t, freq, big, t[f].directCalls);
  }

  lemma {:induction false} Depth2Zero(t: Table, freq: FreqMap, rs: seq<CallInfo>)
    requires forall k :: k in t ==> t[k].filename !in freq
    ensures Depth2(t, freq, rs) == 0
  {
    if rs != [] {
      Depth2Zero(t, freq, rs[..|rs| - 1]);
    }
  }

  lemma {:induction false} Depth1Zero(t: Table, freq: FreqMap, rs: seq<CallInfo>)
    requires forall k :: k in t ==> t[k].filename !in freq
    ensures Depth1(t, freq, rs) == 0
  {
    if rs != [] {
      Depth1Zero(t, freq, rs[..|rs| - 1]);
      var g := rs[|rs| - 1].callee;
      if g in t {
        Depth2Zero(t, freq, t[g].directCalls);
      }
    }
  }

  /** When no file of the table is a hotspot (in particular when the hotspot file could not be opened), every score is 0. */
  lemma ScoreWithoutHotspots(t: Table, freq: FreqMap, f: FuncId)
    requires f in t && forall k :: k in t ==> t[k].filename !in freq
    ensures Score(t, freq, f) == 0
  {
    Depth1Zero(t, freq, t[f].directCalls);
  }

  /** One hotspot line `a.c 2`; `f` in file `a.c` calls `g` in `b.c`, which calls `f` back: `f` scores 3*2 + 2*0 + 1*2, `g` scores 3*0 + 2*2 + 1*0. */
  lemma ScoreExample()
    ensures var f := FunctionInfo(1, [CallInfo(2, 7, "a.c", 0)], [], 1, 0, "a.c", 0);
            var g := FunctionInfo(2, [CallInfo(1, 3, "b.c", 0)], [], 1, 1, "b.c", 0);
            var t := map[1 := f, 2 := g];
            Score(t, map["a.c" := 2], 1) == 8 && Score(t, map["a.c" := 2], 2) == 4
  {
    var f := FunctionInfo(1, [CallInfo(2, 7, "a.c", 0)], [], 1, 0, "a.c", 0);
    var g := FunctionInfo(2, [CallInfo(1, 3, "b.c", 0)], [], 1, 1, "b.c", 0);
    var t := map[1 := f, 2 := g];
    var freq := map["a.c" := 2];
    assert "b.c" != "a.c" by { assert "b.c"[0] != "a.c"[0]; }
    assert Freq(freq, "b.c") == 0;
    assert Depth2(t, freq, g.directCalls) == 2 by {
      assert g.directCalls[..0] == [];
    }
    assert Depth2(t, freq, f.directCalls) == 0 by {
      assert f.directCalls[..0] == [];
    }
    assert Depth1(t, freq, f.directCalls) == 2 by {
      assert f.directCalls[..0] == [];
    }
    assert Depth1(t, freq, g.directCalls) == 4 by {
      assert g.directCalls[..0] == [];
    }
  }
}
