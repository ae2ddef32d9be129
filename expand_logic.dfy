/** The truth-state expansion of the Dutch waterways test model: a
    DiscreteControl logic row whose truth state holds `A` ("any") stands
    for every row with `T` or `F` in those places. */
module ExpandLogic {

  /** `truth_state.count("A")`. */
  function CountA(s: string): nat {
    if s == [] then 0 else CountA(s[..|s| - 1]) + (if s[|s| - 1] == 'A' then 1 else 0)
  }

  function Pow2(k: nat): nat {
    if k == 0 then 1 else 2 * Pow2(k - 1)
  }

  /** Only `T` and `F`. */
  predicate IsTF(s: string) {
    forall j :: 0 <= j < |s| ==> s[j] == 'T' || s[j] == 'F'
  }

  /** Each string with `c` put in front. */
  function Prefixed(c: char, r: seq<string>): (p: seq<string>)
    ensures |p| == |r| && forall i :: 0 <= i < |r| ==> p[i] == [c] + r[i]
  {
    seq(|r|, i requires 0 <= i < |r| => [c] + r[i])
  }

  /** `product("TF", repeat=k)`, in its order: the first place varies
      slowest, `T` before `F`. */
  function Subs(k: nat): (r: seq<string>)
    ensures |r| == Pow2(k)
    ensures forall i :: 0 <= i < |r| ==> |r[i]| == k && IsTF(r[i])
  {
    if k == 0 then [""]
    else
      var rest := Subs(k - 1);
      Prefixed('T', rest) + Prefixed('F', rest)
  }

  /** The substitutions are pairwise different. */
  lemma {:induction false} SubsDistinct(k: nat)
    ensures forall i, j :: 0 <= i < j < |Subs(k)| ==> Subs(k)[i] != Subs(k)[j]
  {
    if k > 0 {
      SubsDistinct(k - 1);
      var rest := Subs(k - 1);
      var n := |rest|;
      forall i, j | 0 <= i < j < |Subs(k)| ensures Subs(k)[i] != Subs(k)[j] {
        var a := Subs(k)[i];
        var b := Subs(k)[j];
        if i < n && j >= n {
          assert a[0] == 'T' && b[0] == 'F';
        } else if j < n {
          assert a[1..] == rest[i] && b[1..] == rest[j];
        } else {
          assert a[1..] == rest[i - n] && b[1..] == rest[j - n];
        }
      }
    }
  }

  /** Every `T`/`F` string of length `k` is a substitution. */
  lemma {:induction false} SubsComplete(k: nat, s: string)
    requires |s| == k && IsTF(s)
    ensures s in Subs(k)
  {
    if k > 0 {
      var tail := s[1..];
      SubsComplete(k - 1, tail);
      var rest := Subs(k - 1);
      assert s == [s[0]] + tail;
      PrefixedMember(s[0], rest, tail);
      assert Subs(k) == Prefixed('T', rest) + Prefixed('F', rest);
    }
  }

  lemma PrefixedMember(c: char, r: seq<string>, x: string)
    requires x in r
    ensures [c] + x in Prefixed(c, r)
  {
    var i :| 0 <= i < |r| && r[i] == x;
    assert Prefixed(c, r)[i] == [c] + x;
  }

  // ---------------------------------------------------------------------
  // One truth state

  /** The truth state with its `A`s replaced in turn by the letters of
      `sub`. */
  function Substitute(truth: string, sub: string): (out: string)
    requires |sub| == CountA(truth)
    ensures |out| == |truth|
  {
    if truth == [] then ""
    else
      var init := truth[..|truth| - 1];
      var last := truth[|truth| - 1];
      if last == 'A' then Substitute(init, sub[..|sub| - 1]) + [sub[|sub| - 1]]
      else Substitute(init, sub) + [last]
  }

  /** A place not holding `A` keeps its letter; the `A` at place `p` gets
      the letter of `sub` numbered by the `A`s before it. */
  lemma {:induction false} SubstituteAt(truth: string, sub: string)
    requires |sub| == CountA(truth)
    ensures forall p :: 0 <= p < |truth| && truth[p] != 'A' ==> Substitute(truth, sub)[p] == truth[p]
    ensures forall p :: 0 <= p < |truth| && truth[p] == 'A' ==>
      CountA(truth[..p]) < |sub| && Substitute(truth, sub)[p] == sub[CountA(truth[..p])]
  {
    if truth != [] {
      var n := |truth| - 1;
      var init := truth[..n];
      var last := truth[n];
      var subInit := if last == 'A' then sub[..|sub| - 1] else sub;
      SubstituteAt(init, subInit);
      forall p | 0 <= p < n
        ensures truth[..p] == init[..p] && truth[p] == init[p]
      {
      }
      assert truth[..n] == init;
      CountPrefixBound(truth);
    }
  }

  /** The `A`s before any place are fewer than the `A`s in all when that
      place holds one. */
  lemma CountPrefixBound(truth: string)
    requires truth != []
    ensures forall p :: 0 <= p < |truth| - 1 && truth[p] == 'A' ==> CountA(truth[..p]) < CountA(truth[..|truth| - 1])
  {
    forall p | 0 <= p < |truth| - 1 && truth[p] == 'A'
      ensures CountA(truth[..p]) < CountA(truth[..|truth| - 1])
    {
      CountMonotone(truth[..|truth| - 1], p + 1);
      assert truth[..|truth| - 1][..p + 1] == truth[..p + 1];
      assert truth[..p + 1][..p] == truth[..p];
    }
  }

  /** Counting `A`s over a prefix gives no more than over the whole. */
  lemma {:induction false} CountMonotone(s: string, i: nat)
    requires i <= |s|
    ensures CountA(s[..i]) <= CountA(s)
    decreases |s| - i
  {
    if i < |s| {
      CountMonotone(s, i + 1);
      assert s[..i + 1][..i] == s[..i];
    } else {
      assert s[..i] == s;
    }
  }

  /** The expansions of a truth state, one per substitution, in product
      order. */
  function Expansions(truth: string): (r: seq<string>)
    ensures |r| == Pow2(CountA(truth))
  {
    var subs := Subs(CountA(truth));
    seq(|subs|, i requires 0 <= i < |subs| => Substitute(truth, subs[i]))
  }

  /** The letters of `o` at the places where `truth` holds `A`. */
  function AtA(o: string, truth: string): (sub: string)
    requires |o| == |truth|
    ensures |sub| == CountA(truth)
  {
    if truth == [] then ""
    else
      var n := |truth| - 1;
      AtA(o[..n], truth[..n]) + (if truth[n] == 'A' then [o[n]] else [])
  }

  /** `o` is one of the rows a truth state stands for: same length, the
      same letter where it has no `A`, `T` or `F` where it has one. */
  predicate Instance(o: string, truth: string) {
    |o| == |truth| &&
    forall p :: 0 <= p < |truth| ==> if truth[p] == 'A' then o[p] == 'T' || o[p] == 'F' else o[p] == truth[p]
  }

  /** An instance is the substitution of its own letters at the `A`s. */
  lemma {:induction false} InstanceSubstitutes(o: string, truth: string)
    requires Instance(o, truth)
    ensures IsTF(AtA(o, truth)) && Substitute(truth, AtA(o, truth)) == o
  {
    if truth != [] {
      var n := |truth| - 1;
      assert Instance(o[..n], truth[..n]);
      InstanceSubstitutes(o[..n], truth[..n]);
      var sub := AtA(o, truth);
      var subInit := AtA(o[..n], truth[..n]);
      assert truth[..n] == truth[..|truth| - 1];
      if truth[n] == 'A' {
        assert sub == subInit + [o[n]];
        assert sub[..|sub| - 1] == subInit && sub[|sub| - 1] == o[n];
        assert Substitute(truth, sub) == Substitute(truth[..n], subInit) + [o[n]];
      } else {
        assert sub == subInit && o[n] == truth[n];
        assert Substitute(truth, sub) == Substitute(truth[..n], subInit) + [o[n]];
      }
      assert o == o[..n] + [o[n]];
    }
  }

  /** A truth state with `k` `A`s expands to exactly its `2^k` instances,
      each once: every expansion is an instance, every instance is an
      expansion, and no two expansions are equal. */
  lemma ExpansionsFacts(truth: string)
    ensures |Expansions(truth)| == Pow2(CountA(truth))
    ensures forall i :: 0 <= i < |Expansions(truth)| ==> Instance(Expansions(truth)[i], truth)
    ensures forall o :: Instance(o, truth) ==> o in Expansions(truth)
    ensures forall i, j :: 0 <= i < j < |Expansions(truth)| ==> Expansions(truth)[i] != Expansions(truth)[j]
  {
    var k := CountA(truth);
    var subs := Subs(k);
    var e := Expansions(truth);
    forall i | 0 <= i < |e| ensures Instance(e[i], truth) {
      SubstituteAt(truth, subs[i]);
    }
    forall o | Instance(o, truth) ensures o in e {
      InstanceSubstitutes(o, truth);
      SubsComplete(k, AtA(o, truth));
      var i :| 0 <= i < |subs| && subs[i] == AtA(o, truth);
      assert e[i] == o;
    }
    SubsDistinct(k);
    forall i, j | 0 <= i < j < |e| ensures e[i] != e[j] {
      SubstituteInjective(truth, subs[i], subs[j]);
    }
  }

  /** Different substitutions give different expansions. */
  lemma SubstituteInjective(truth: string, a: string, b: string)
    requires |a| == CountA(truth) && |b| == CountA(truth)
    ensures Substitute(truth, a) == Substitute(truth, b) ==> a == b
  {
    if Substitute(truth, a) == Substitute(truth, b) {
      SubstituteAt(truth, a);
      SubstituteAt(truth, b);
      forall j | 0 <= j < |a| ensures a[j] == b[j] {
        var p := PlaceOfA(truth, j);
      }
    }
  }

  /** The place of the `A` numbered `j`. */
  lemma {:induction false} PlaceOfA(truth: string, j: nat) returns (p: nat)
    requires j < CountA(truth)
    ensures p < |truth| && truth[p] == 'A' && CountA(truth[..p]) == j
  {
    var n := |truth| - 1;
    assert truth[..n + 1] == truth;
    if j < CountA(truth[..n]) {
      p := PlaceOfA(truth[..n], j);
      assert truth[..n][..p] == truth[..p];
    } else {
      p := n;
    }
  }

  /** The loop over one truth state for one substitution: each `A` takes
      the next letter of the substitution. */
  method FillState(truth: string, substitution: string) returns (truthStateExpanded: string)
    requires |substitution| == CountA(truth)
    ensures truthStateExpanded == Substitute(truth, substitution)
  {
    truthStateExpanded := "";
    var indexS := 0;
    for i := 0 to |truth|
      invariant indexS == CountA(truth[..i]) && indexS <= |substitution|
      invariant truthStateExpanded == Substitute(truth[..i], substitution[..indexS])
    {
      assert truth[..i + 1][..i] == truth[..i];
      CountMonotone(truth, i + 1);
      if truth[i] == 'A' {
        assert substitution[..indexS + 1][..indexS] == substitution[..indexS];
        truthStateExpanded := truthStateExpanded + [substitution[indexS]];
        indexS := indexS + 1;
      } else {
        truthStateExpanded := truthStateExpanded + [truth[i]];
      }
    }
    assert truth[..|truth|] == truth;
    assert substitution[..indexS] == substitution;
  }

  // ---------------------------------------------------------------------
  // The logic table

  /** A row of the DiscreteControl logic table. */
  datatype LogicRow = LogicRow(nodeId: int, truthState: string, controlState: string)

  /** The rows one logic row expands to: its expansions, each with the
      row's node id and control state. */
  function RowsOf(row: LogicRow): seq<LogicRow> {
    var e := Expansions(row.truthState);
    seq(|e|, i requires 0 <= i < |e| => LogicRow(row.nodeId, e[i], row.controlState))
  }

  /** `expand_logic`: the rows of every logic row, in input order. */
  function Expanded(logic: seq<LogicRow>): seq<LogicRow> {
    if logic == [] then [] else Expanded(logic[..|logic| - 1]) + RowsOf(logic[|logic| - 1])
  }

  /** Expanding row by row: the expansion of a concatenation is the
      concatenation of the expansions, so the rows stay in input order. */
  lemma {:induction false} ExpandedConcat(a: seq<LogicRow>, b: seq<LogicRow>)
    ensures Expanded(a + b) == Expanded(a) + Expanded(b)
    decreases |b|
  {
    if b == [] {
      assert a + b == a;
    } else {
      assert (a + b)[..|a + b| - 1] == a + b[..|b| - 1];
      ExpandedConcat(a, b[..|b| - 1]);
    }
  }

  /** Every expanded row copies node id and control state from a logic row
      and carries an instance of its truth state. */
  lemma {:induction false} ExpandedRowsFrom(logic: seq<LogicRow>)
    ensures forall r :: r in Expanded(logic) ==>
      exists k :: 0 <= k < |logic| && r.nodeId == logic[k].nodeId && r.controlState == logic[k].controlState &&
                 Instance(r.truthState, logic[k].truthState)
  {
    if logic != [] {
      var n := |logic| - 1;
      ExpandedRowsFrom(logic[..n]);
      ExpansionsFacts(logic[n].truthState);
      forall r | r in Expanded(logic)
        ensures exists k :: 0 <= k < |logic| && r.nodeId == logic[k].nodeId && r.controlState == logic[k].controlState &&
                            Instance(r.truthState, logic[k].truthState)
      {
        if r in Expanded(logic[..n]) {
          var k :| 0 <= k < n && r.nodeId == logic[..n][k].nodeId && r.controlState == logic[..n][k].controlState &&
                   Instance(r.truthState, logic[..n][k].truthState);
          assert logic[k] == logic[..n][k];
        } else {
          var i :| 0 <= i < |RowsOf(logic[n])| && RowsOf(logic[n])[i] == r;
          assert Instance(r.truthState, logic[n].truthState);
        }
      }
    }
  }

  /** The nested loops of `expand_logic`. */
  method ExpandLogicRows(logic: seq<LogicRow>) returns (logicNew: seq<LogicRow>)
    ensures logicNew == Expanded(logic)
  {
    logicNew := [];
    for i := 0 to |logic|
      invariant logicNew == Expanded(logic[..i])
    {
      var row := logic[i];
      var truthState := row.truthState;
      var nSubstitutions := CountA(truthState);
      var subs := Subs(nSubstitutions);
      var truthStatesExpanded: seq<string> := [];
      for s := 0 to |subs|
        invariant |truthStatesExpanded| == s
        invariant forall j :: 0 <= j < s ==> truthStatesExpanded[j] == Substitute(truthState, subs[j])
      {
        var truthStateExpanded := FillState(truthState, subs[s]);
        truthStatesExpanded := truthStatesExpanded + [truthStateExpanded];
      }
      assert truthStatesExpanded == Expansions(truthState);
      var rowsNew := seq(|truthStatesExpanded|, j requires 0 <= j < |truthStatesExpanded| =>
                           LogicRow(row.nodeId, truthStatesExpanded[j], row.controlState));
      assert rowsNew == RowsOf(row);
      assert logic[..i + 1][..i] == logic[..i];
      logicNew := logicNew + rowsNew;
    }
    assert logic[..|logic|] == logic;
  }
}
