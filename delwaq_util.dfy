/** The binary and text encoders of the Delwaq export: the `dddhhmmss`
    duration text, the Delwaq `.poi`, `.len`, `.vol` and `.flo` files, the check of
    substance names and the node and link filter of the output grid. Float32
    payloads stay uninterpreted values of a type parameter `V`; the files are
    sequences of 4-byte words. */
module DelwaqUtil {
  import opened Common
  import opened Strings
  import opened Bytes
  import opened Sorting

  // ---------------------------------------------------------------- strfdelta

  function Zeros(n: nat): (z: string)
    ensures |z| == n && forall k :: 0 <= k < n ==> z[k] == '0'
  {
    if n == 0 then "" else "0" + Zeros(n - 1)
  }

  /** Python's `f"{n:0{width}d}"`: zero-padded to `width`, the sign counting
      towards the width. */
  function FormatPadded(n: int, width: nat): string {
    if n < 0 then
      var digits := NatToString(-n);
      "-" + Zeros(if width >= 1 + |digits| then width - 1 - |digits| else 0) + digits
    else
      var digits := NatToString(n);
      Zeros(if width >= |digits| then width - |digits| else 0) + digits
  }

  /** `strfdelta` of the timedelta of `totalSeconds` seconds (microseconds
      are not used): days, then hours, minutes and seconds of the day. */
  function Strfdelta(totalSeconds: int): string {
    var days := totalSeconds / 86400;   // `timedelta.days`, rounded down
    var secs := totalSeconds % 86400;   // `timedelta.seconds`, in [0, 86400)
    var hours := secs / 3600;
    var rem := secs % 3600;
    FormatPadded(days, 3) + FormatPadded(hours, 2) + FormatPadded(rem / 60, 2) + FormatPadded(rem % 60, 2)
  }

  lemma {:induction false} DigitsValueZeros(n: nat, s: string)
    requires forall k :: 0 <= k < |s| ==> IsDigit(s[k])
    ensures forall k :: 0 <= k < |Zeros(n) + s| ==> IsDigit((Zeros(n) + s)[k])
    ensures DigitsValue(Zeros(n) + s) == DigitsValue(s)
    decreases |s| + n
  {
    var z := Zeros(n);
    if s == [] {
      if n > 0 {
        assert z[..n - 1] == Zeros(n - 1);
        DigitsValueZeros(n - 1, "");
        assert Zeros(n - 1) + "" == Zeros(n - 1);
        assert z + s == z;
      }
    } else {
      var s' := s[..|s| - 1];
      assert (z + s)[..|z + s| - 1] == z + s';
      DigitsValueZeros(n, s');
    }
  }

  lemma NatToStringShort(n: nat, width: nat)
    requires width >= 1 && n < Pow10(width)
    ensures |NatToString(n)| <= width
    decreases width
  {
    if n >= 10 {
      NatToStringShort(n / 10, width - 1);
    }
  }

  function Pow10(k: nat): (p: nat)
    ensures p >= 1
  {
    if k == 0 then 1 else 10 * Pow10(k - 1)
  }

  /** A non-negative number below `10^width` formats to exactly `width`
      digits that read back as the number. */
  lemma FormatPaddedDigits(n: nat, width: nat)
    requires width >= 1 && n < Pow10(width)
    ensures var s := FormatPadded(n, width);
      |s| == width && (forall k :: 0 <= k < |s| ==> IsDigit(s[k])) && DigitsValue(s) == n
  {
    NatToStringShort(n, width);
    DigitsValueZeros(width - |NatToString(n)|, NatToString(n));
  }

  /** Reads a `dddhhmmss` text back as seconds. */
  function ParseDelta(s: string): int
    requires |s| == 9 && forall k :: 0 <= k < 9 ==> IsDigit(s[k])
  {
    DigitsValue(s[..3]) * 86400 + DigitsValue(s[3..5]) * 3600 + DigitsValue(s[5..7]) * 60 + DigitsValue(s[7..])
  }

  /** For durations below 1000 days the text has 9 digits, and reading it
      back gives the duration. */
  lemma StrfdeltaRoundTrip(totalSeconds: int)
    requires 0 <= totalSeconds < 1000 * 86400
    ensures var s := Strfdelta(totalSeconds);
      |s| == 9 && (forall k :: 0 <= k < 9 ==> IsDigit(s[k])) && ParseDelta(s) == totalSeconds
  {
    var days := totalSeconds / 86400;
    var secs := totalSeconds % 86400;
    var hours := secs / 3600;
    var rem := secs % 3600;
    FormatPaddedDigits(days, 3);
    FormatPaddedDigits(hours, 2);
    FormatPaddedDigits(rem / 60, 2);
    FormatPaddedDigits(rem % 60, 2);
    var a, b, c, d := FormatPadded(days, 3), FormatPadded(hours, 2), FormatPadded(rem / 60, 2), FormatPadded(rem % 60, 2);
    var s := a + b + c + d;
    assert s[..3] == a && s[3..5] == b && s[5..7] == c && s[7..] == d;
  }

  /** A negative number of days takes its sign inside the width: one day
      before the epoch prints as `-01000000`. */
  lemma StrfdeltaNegative()
    ensures Strfdelta(-86400) == "-01000000"
  {
    assert -86400 / 86400 == -1 && -86400 % 86400 == 0;
    assert NatToString(1) == "1" && NatToString(0) == "0";
    assert FormatPadded(-1, 3) == "-01";
    assert FormatPadded(0, 2) == "00";
  }

  // ------------------------------------------------------------------ records

  /** One 4-byte word of a Delwaq file: a little-endian int32 or an uninterpreted float32. */
  datatype Word<V> = I32(bytes: seq<byte>) | F32(value: V)

  /** The `k`-th 16-byte record of `out` reads as `a, b, 0, 0`. */
  predicate PointerRecord(out: seq<byte>, k: nat, a: int, b: int)
    requires 16 * k + 16 <= |out|
  {
    UnpackI32(out[16 * k..16 * k + 4]) == a &&
    UnpackI32(out[16 * k + 4..16 * k + 8]) == b &&
    UnpackI32(out[16 * k + 8..16 * k + 12]) == 0 &&
    UnpackI32(out[16 * k + 12..16 * k + 16]) == 0
  }

  lemma PointerRecordExtend(out: seq<byte>, more: seq<byte>, k: nat, a: int, b: int)
    requires 16 * k + 16 <= |out| && PointerRecord(out, k, a, b)
    ensures PointerRecord(out + more, k, a, b)
  {
    var w := out + more;
    assert w[16 * k..16 * k + 16] == out[16 * k..16 * k + 16];
    assert w[16 * k..16 * k + 4] == out[16 * k..16 * k + 4];
    assert w[16 * k + 4..16 * k + 8] == out[16 * k + 4..16 * k + 8];
    assert w[16 * k + 8..16 * k + 12] == out[16 * k + 8..16 * k + 12];
    assert w[16 * k + 12..16 * k + 16] == out[16 * k + 12..16 * k + 16];
  }

  lemma PointerRecordNew(out: seq<byte>, a: int, b: int)
    requires |out| % 16 == 0 && InI32(a) && InI32(b)
    ensures var w := out + PackI32(a).value + PackI32(b).value + PackI32(0).value + PackI32(0).value;
      |w| == |out| + 16 && PointerRecord(w, |out| / 16, a, b)
  {
    PackUnpack(a);
    PackUnpack(b);
    PackUnpack(0);
    var w := out + PackI32(a).value + PackI32(b).value + PackI32(0).value + PackI32(0).value;
    var n := |out|;
    assert 16 * (n / 16) == n;
    assert w[n..n + 4] == PackI32(a).value;
    assert w[n + 4..n + 8] == PackI32(b).value;
    assert w[n + 8..n + 12] == PackI32(0).value;
    assert w[n + 12..n + 16] == PackI32(0).value;
  }

  /** Appending the record of link `i` to the records of the links before it. */
  lemma PointerStep(out: seq<byte>, links: seq<(int, int)>, i: nat)
    requires i < |links| && |out| == 16 * i && InI32(links[i].0) && InI32(links[i].1)
    requires forall k :: 0 <= k < i ==> PointerRecord(out, k, links[k].0, links[k].1)
    ensures var (a, b) := links[i];
      var w := out + PackI32(a).value + PackI32(b).value + PackI32(0).value + PackI32(0).value;
      |w| == 16 * (i + 1) && forall k :: 0 <= k < i + 1 ==> PointerRecord(w, k, links[k].0, links[k].1)
  {
    var (a, b) := links[i];
    PointerRecordNew(out, a, b);
    var w := out + PackI32(a).value + PackI32(b).value + PackI32(0).value + PackI32(0).value;
    var record := PackI32(a).value + PackI32(b).value + PackI32(0).value + PackI32(0).value;
    assert w == out + record;
    forall k | 0 <= k < i ensures PointerRecord(w, k, links[k].0, links[k].1) {
      PointerRecordExtend(out, record, k, links[k].0, links[k].1);
    }
  }

  /** `write_pointer`: `from, to, 0, 0` as int32 per link. */
  method WritePointer(links: seq<(int, int)>) returns (r: Result<seq<byte>>)
    ensures r.Ok? <==> forall k :: 0 <= k < |links| ==> InI32(links[k].0) && InI32(links[k].1)
    ensures r.Err? ==> r.error == StructError
    ensures r.Ok? ==> |r.value| == 16 * |links|
    ensures r.Ok? ==> forall k :: 0 <= k < |links| ==> PointerRecord(r.value, k, links[k].0, links[k].1)
  {
    var out: seq<byte> := [];
    var i := 0;
    while i < |links|
      invariant 0 <= i <= |links|
      invariant |out| == 16 * i
      invariant forall k :: 0 <= k < i ==> InI32(links[k].0) && InI32(links[k].1)
      invariant forall k :: 0 <= k < i ==> PointerRecord(out, k, links[k].0, links[k].1)
    {
      var (a, b) := links[i];
      var pa := PackI32(a);
      var pb := PackI32(b);
      if pa.Err? || pb.Err? {
        return Err(StructError);
      }
      var zero := PackI32(0);
      PointerStep(out, links, i);
      var record := pa.value + pb.value + zero.value + zero.value;
      assert out + record == out + pa.value + pb.value + zero.value + zero.value;
      out := out + record;
      i := i + 1;
    }
    return Ok(out);
  }

  /** `write_lengths`: a zero int32 header, then the float32 data. */
  function WriteLengths<V>(data: seq<V>): (file: seq<Word<V>>)
    ensures |file| == 1 + |data|
    ensures file[0].I32? && |file[0].bytes| == 4 && UnpackI32(file[0].bytes) == 0
    ensures forall k :: 0 <= k < |data| ==> file[k + 1] == F32(data[k])
  {
    PackUnpack(0);
    [I32(PackI32(0).value)] + seq(|data|, k requires 0 <= k < |data| => F32(data[k]))
  }

  // -------------------------------------------------------- volumes and flows

  /** One record of a volume or flow file: a time and the values of that time. */
  datatype Record<V> = Record(time: int, values: seq<V>)

  /** The values of the rows at time `t`, in row order (one `groupby` group). */
  function Group<V>(rows: seq<(int, V)>, t: int): (g: seq<V>)
    ensures |g| <= |rows|
  {
    if rows == [] then []
    else
      var last := rows[|rows| - 1];
      Group(rows[..|rows| - 1], t) + (if last.0 == t then [last.1] else [])
  }

  function TimeColumn<V>(rows: seq<(int, V)>): (ts: seq<int>)
    ensures |ts| == |rows| && forall k :: 0 <= k < |rows| ==> ts[k] == rows[k].0
  {
    seq(|rows|, k requires 0 <= k < |rows| => rows[k].0)
  }

  /** The group keys of `groupby("time")`: the distinct times, ascending. */
  function Times<V>(rows: seq<(int, V)>): seq<int> {
    SortUnique(TimeColumn(rows))
  }

  /** The groups of `groupby("time")`, in the order it hands them out. */
  function Records<V>(rows: seq<(int, V)>): (recs: seq<Record<V>>)
    ensures |recs| == |Times(rows)|
    ensures forall k :: 0 <= k < |recs| ==> recs[k].time == Times(rows)[k]
    ensures forall k :: 0 <= k < |recs| ==> recs[k].values == Group(rows, recs[k].time)
  {
    var ts := Times(rows);
    seq(|ts|, k requires 0 <= k < |ts| => Record(ts[k], Group(rows, ts[k])))
  }

  /** The values of `Group(rows, t)` are exactly the values of the rows at `t`. */
  lemma {:induction false} GroupMembers<V>(rows: seq<(int, V)>, t: int, i: nat)
    requires i < |rows| && rows[i].0 == t
    ensures rows[i].1 in Group(rows, t)
    decreases |rows|
  {
    if i < |rows| - 1 {
      GroupMembers(rows[..|rows| - 1], t, i);
    }
  }

  /** The records come in strictly ascending time; every row lands in the
      record of its own time; and no record is empty. */
  lemma RecordsPartitionRows<V>(rows: seq<(int, V)>)
    ensures var recs := Records(rows);
      (forall j, k :: 0 <= j < k < |recs| ==> recs[j].time < recs[k].time) &&
      (forall i :: 0 <= i < |rows| ==>
        exists k :: 0 <= k < |recs| && recs[k].time == rows[i].0 && rows[i].1 in recs[k].values) &&
      (forall k :: 0 <= k < |recs| ==> |recs[k].values| > 0)
  {
    var recs := Records(rows);
    var ts := Times(rows);
    forall i | 0 <= i < |rows|
      ensures exists k :: 0 <= k < |recs| && recs[k].time == rows[i].0 && rows[i].1 in recs[k].values
    {
      assert TimeColumn(rows)[i] == rows[i].0;
      assert rows[i].0 in ts;
      var k :| 0 <= k < |ts| && ts[k] == rows[i].0;
      GroupMembers(rows, rows[i].0, i);
      assert recs[k].time == rows[i].0 && rows[i].1 in recs[k].values;
    }
    forall k | 0 <= k < |recs| ensures |recs[k].values| > 0 {
      assert ts[k] in TimeColumn(rows);
      var i :| 0 <= i < |rows| && TimeColumn(rows)[i] == ts[k];
      GroupMembers(rows, ts[k], i);
    }
  }

  function F32Words<V>(values: seq<V>): (w: seq<Word<V>>)
    ensures |w| == |values| && forall k :: 0 <= k < |values| ==> w[k] == F32(values[k])
  {
    seq(|values|, k requires 0 <= k < |values| => F32(values[k]))
  }

  predicate TimesFit<V>(recs: seq<Record<V>>) {
    forall k :: 0 <= k < |recs| ==> InI32(recs[k].time)
  }

  /** The words of the records: per record its int32 time, then its values. */
  function Flatten<V>(recs: seq<Record<V>>): seq<Word<V>>
    requires TimesFit(recs)
  {
    if recs == [] then []
    else
      var last := recs[|recs| - 1];
      Flatten(recs[..|recs| - 1]) + [I32(PackI32(last.time).value)] + F32Words(last.values)
  }

  /** Writing the records; `struct.error` when a time does not fit in 32 bits. */
  function EncodeRecords<V>(recs: seq<Record<V>>): (r: Result<seq<Word<V>>>)
    ensures r.Ok? <==> TimesFit(recs)
    ensures r.Err? ==> r.error == StructError
  {
    if TimesFit(recs) then Ok(Flatten(recs)) else Err(StructError)
  }

  /** The file `write_volumes` / `write_flows` produce for the given (time,
      value) rows. With `trailingStep` (the current writers) a last record at
      the last time plus the step repeats the values of the last group; with
      no rows that step reads an unset loop variable, a NameError. Without it
      (the older writers) there is one record per group and nothing more. */
  function TimeGroupFile<V>(rows: seq<(int, V)>, trailingStep: Option<int>): Result<seq<Word<V>>> {
    RecordFile(Records(rows), trailingStep)
  }

  /** The file for the given records, with the trailing record if any. */
  function RecordFile<V>(recs: seq<Record<V>>, trailingStep: Option<int>): Result<seq<Word<V>>> {
    match trailingStep
    case None => EncodeRecords(recs)
    case Some(step) =>
      if recs == [] then Err(NameError("time"))
      else
        var last := recs[|recs| - 1];
        EncodeRecords(recs + [Record(last.time + step, last.values)])
  }

  lemma FlattenSnoc<V>(recs: seq<Record<V>>, r: Record<V>)
    requires TimesFit(recs) && InI32(r.time)
    ensures TimesFit(recs + [r])
    ensures Flatten(recs + [r]) == Flatten(recs) + [I32(PackI32(r.time).value)] + F32Words(r.values)
  {
    assert (recs + [r])[..|recs|] == recs;
  }

  lemma PrefixStep<V>(recs: seq<Record<V>>, i: nat)
    requires i < |recs|
    ensures recs[..i + 1] == recs[..i] + [recs[i]]
  {
  }

  /** The loop of `write_volumes` / `write_flows`: one packed time and the
      group's values per group. */
  method WriteRecords<V>(recs: seq<Record<V>>) returns (r: Result<seq<Word<V>>>)
    ensures r == EncodeRecords(recs)
  {
    var out: seq<Word<V>> := [];
    var i := 0;
    while i < |recs|
      invariant 0 <= i <= |recs|
      invariant TimesFit(recs[..i])
      invariant out == Flatten(recs[..i])
    {
      var packed := PackI32(recs[i].time);
      if packed.Err? {
        return Err(StructError);
      }
      PrefixStep(recs, i);
      FlattenSnoc(recs[..i], recs[i]);
      out := out + [I32(packed.value)] + F32Words(recs[i].values);
      i := i + 1;
    }
    assert recs[..i] == recs;
    return Ok(out);
  }

  /** `write_volumes` / `write_flows`: the groups, then with `trailingStep`
      one more record at the last time plus the step. */
  method WriteTimeGroups<V>(rows: seq<(int, V)>, trailingStep: Option<int>) returns (r: Result<seq<Word<V>>>)
    ensures r == TimeGroupFile(rows, trailingStep)
  {
    r := WriteRecordFile(Records(rows), trailingStep);
  }

  /** The groups, then the trailing record. */
  method WriteRecordFile<V>(recs: seq<Record<V>>, trailingStep: Option<int>) returns (r: Result<seq<Word<V>>>)
    ensures r == RecordFile(recs, trailingStep)
  {
    var body := WriteRecords(recs);
    if body.Err? {
      if trailingStep.Some? {
        var x := Record(recs[|recs| - 1].time + trailingStep.value, recs[|recs| - 1].values);
        assert !TimesFit(recs + [x]) by {
          var k :| 0 <= k < |recs| && !InI32(recs[k].time);
          assert (recs + [x])[k] == recs[k];
        }
      }
      return Err(StructError);
    }
    var out := body.value;
    if trailingStep.Some? {
      if |recs| == 0 {
        return Err(NameError("time"));
      }
      var last := recs[|recs| - 1];
      var ntime := last.time + trailingStep.value;
      var packed := PackI32(ntime);
      if packed.Err? {
        assert (recs + [Record(ntime, last.values)])[|recs|].time == ntime;
        return Err(StructError);
      }
      FlattenSnoc(recs, Record(ntime, last.values));
      out := out + [I32(packed.value)] + F32Words(last.values);
    }
    return Ok(out);
  }

  // --------------------------------------------------------- substance names

  predicate IsAscii(s: string) {
    forall k :: 0 <= k < |s| ==> s[k] as int < 128
  }

  /** `is_valid_substance`: ASCII, at most 20 characters, no `;` and no `"`. */
  function IsValidSubstance(name: string): (r: bool)
    ensures r <==> IsAscii(name) && |name| <= 20 && ';' !in name && '"' !in name
  {
    ContainsChar(name, ';');
    ContainsChar(name, '"');
    if !IsAscii(name) then false
    else if |name| > 20 then false
    else if Find(name, ";") >= 0 then false
    else if Find(name, "\"") >= 0 then false
    else true
  }

  /** The names the tests reject. */
  lemma SubstancesRejected()
    ensures !IsValidSubstance("Foo;123") && !IsValidSubstance("\U{03C0}")
    ensures !IsValidSubstance("AVeryLongSubstanceName") && !IsValidSubstance("Double\"Quote")
  {
    assert "Foo;123"[3] == ';';
    assert "\U{03C0}"[0] as int >= 128;
    assert "Double\"Quote"[6] == '"';
  }

  /** A name the tests accept. */
  lemma SubstanceAccepted()
    ensures IsValidSubstance("Tracer")
  {
    var s := "Tracer";
    assert forall k :: 0 <= k < |s| ==> s[k] in "Tracer";
  }

  // ------------------------------------------------------------- output grid

  /** The grid the results are written on: the kept node ids in ascending
      order, the kept links in graph order, and per link the positions of its
      nodes among the kept nodes. */
  datatype Grid = Grid(nodeIds: seq<int>, links: seq<(int, int)>, connectivity: seq<(nat, nat)>)

  function PositiveIds(nodes: seq<int>): (r: seq<int>)
    ensures forall x :: x in r <==> x in nodes && x > 0
  {
    if nodes == [] then []
    else (if nodes[0] > 0 then [nodes[0]] else []) + PositiveIds(nodes[1..])
  }

  /** The links whose nodes are both kept, in their original order. */
  function KeptLinks(links: seq<(int, int)>, kept: seq<int>): (r: seq<(int, int)>)
    ensures forall e :: e in r <==> e in links && e.0 in kept && e.1 in kept
    ensures |r| <= |links|
  {
    if links == [] then []
    else (if links[0].0 in kept && links[0].1 in kept then [links[0]] else []) + KeptLinks(links[1..], kept)
  }

  function IndexOf(s: seq<int>, x: int): (i: nat)
    requires x in s
    ensures i < |s| && s[i] == x
  {
    if s[0] == x then 0 else 1 + IndexOf(s[1..], x)
  }

  /** `ugrid`: nodes with a positive id, sorted; links between kept nodes;
      link ends as positions in the sorted node list (`argsort` of a sorted
      array is the identity). */
  function UgridTopology(nodes: seq<int>, links: seq<(int, int)>): (g: Grid)
    ensures Increasing(g.nodeIds)
    ensures forall x :: x in g.nodeIds <==> x in nodes && x > 0
    ensures g.links == KeptLinks(links, g.nodeIds)
    ensures |g.connectivity| == |g.links|
    ensures forall k :: 0 <= k < |g.links| ==>
      g.connectivity[k].0 < |g.nodeIds| && g.nodeIds[g.connectivity[k].0] == g.links[k].0 &&
      g.connectivity[k].1 < |g.nodeIds| && g.nodeIds[g.connectivity[k].1] == g.links[k].1
  {
    var ids := SortUnique(PositiveIds(nodes));
    var kept := KeptLinks(links, ids);
    assert forall k :: 0 <= k < |kept| ==> kept[k] in kept;
    var conn := seq(|kept|, k requires 0 <= k < |kept| => (IndexOf(ids, kept[k].0), IndexOf(ids, kept[k].1)));
    Grid(ids, kept, conn)
  }
}
