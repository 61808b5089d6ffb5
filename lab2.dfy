/**
 * Lab2, the replay windower: the vehicle-location file is loaded once,
 * restricted to the first `maxVehicles` distinct vehicles, and replayed to
 * every client cut into time windows of `refreshRate` minutes, of which
 * only the first `maxVehicles` records are sent, as `m2,<vehicle>,<lat>,<lon>`.
 */
module Lab2 {
  import opened Wrappers
  import opened Seqs
  import opened Strings
  import opened LocalTime
  import opened Transport
  import WsPacket

  const DefaultMaxVehicles: int := 10
  const DefaultRefreshRate: int := 60
  const DefaultLocationFile: string := "./files/realtimelocation.csv"

  function Min(a: nat, b: nat): nat {
    if a <= b then a else b
  }

  // ---------------------------------------------------------------------
  // Command-line defaulting (getInstance)

  datatype Config = Config(maxVehicles: int, refreshRate: int, filename: string)

  /** Argument `k` parsed as an integer, or `default` when it is missing or not a valid integer. */
  function IntArg(args: seq<string>, k: nat, default: int): int
  {
    if k < |args| then
      match ParseInt(args[k])
      case Some(n) => n
      case None => default
    else default
  }

  /**
   * The settings getInstance derives from the command line: the vehicle
   * count from the second argument, the refresh rate from the third, the
   * file name from the fourth, each with its default when absent; an
   * argument that is not an integer also gives the default.
   */
  function Configure(args: seq<string>): (c: Config)
    ensures |args| <= 1 ==> c.maxVehicles == DefaultMaxVehicles
    ensures |args| <= 2 ==> c.refreshRate == DefaultRefreshRate
    ensures |args| > 1 && ParseInt(args[1]).None? ==> c.maxVehicles == DefaultMaxVehicles
    ensures |args| > 2 && ParseInt(args[2]).None? ==> c.refreshRate == DefaultRefreshRate
    ensures c.filename == if |args| > 3 then args[3] else DefaultLocationFile
    ensures MinInt <= c.maxVehicles <= MaxInt && MinInt <= c.refreshRate <= MaxInt
  {
    Config(IntArg(args, 1, DefaultMaxVehicles),
           IntArg(args, 2, DefaultRefreshRate),
           if |args| > 3 then args[3] else DefaultLocationFile)
  }

  /** Integers written out on the command line are the settings getInstance uses. */
  lemma ConfigureReadsIntegers(lab: string, vehicles: int, rate: int, rest: seq<string>)
    requires MinInt <= vehicles <= MaxInt && MinInt <= rate <= MaxInt
    ensures Configure([lab, IntToString(vehicles), IntToString(rate)] + rest).maxVehicles == vehicles
    ensures Configure([lab, IntToString(vehicles), IntToString(rate)] + rest).refreshRate == rate
  {
    ParseIntToString(vehicles);
    ParseIntToString(rate);
  }

  // ---------------------------------------------------------------------
  // Loading: trim, drop empty lines

  /** The lines of the file trimmed, without those that are empty after trimming. */
  function Normalise(lines: seq<string>): (r: seq<string>)
    ensures |r| <= |lines|
  {
    if lines == [] then []
    else
      var t := Trim(lines[|lines| - 1]);
      Normalise(lines[..|lines| - 1]) + (if t == "" then [] else [t])
  }

  /** Every normalised line is non-empty and already trimmed. */
  lemma {:induction false} NormaliseTrimmed(lines: seq<string>)
    ensures forall l | l in Normalise(lines) :: l != "" && Trim(l) == l
  {
    if lines != [] {
      NormaliseTrimmed(lines[..|lines| - 1]);
      TrimIdempotent(lines[|lines| - 1]);
    }
  }

  /** Every normalised line is some file line trimmed. */
  lemma {:induction false} NormaliseFrom(lines: seq<string>, l: string)
    requires l in Normalise(lines)
    ensures exists k :: 0 <= k < |lines| && Trim(lines[k]) == l
  {
    var init := lines[..|lines| - 1];
    if l in Normalise(init) {
      NormaliseFrom(init, l);
      var k :| 0 <= k < |init| && Trim(init[k]) == l;
      assert Trim(lines[k]) == l;
    } else {
      assert Trim(lines[|lines| - 1]) == l;
    }
  }

  /** Every file line that is not empty once trimmed reaches the normalised lines, trimmed. */
  lemma {:induction false} NormaliseKeeps(lines: seq<string>, k: nat)
    requires k < |lines| && Trim(lines[k]) != ""
    ensures Trim(lines[k]) in Normalise(lines)
  {
    var init := lines[..|lines| - 1];
    if k < |init| {
      NormaliseKeeps(init, k);
      assert init[k] == lines[k];
    }
  }

  /** Normalising a prefix of the file gives a prefix of the normalised file. */
  lemma {:induction false} NormalisePrefix(lines: seq<string>, i: nat)
    requires i <= |lines|
    ensures Normalise(lines[..i]) <= Normalise(lines)
    decreases |lines| - i
  {
    if i < |lines| {
      NormalisePrefix(lines, i + 1);
      assert lines[..i + 1][..i] == lines[..i];
    } else {
      assert lines[..i] == lines;
    }
  }

  // ---------------------------------------------------------------------
  // Lines and records

  /** The comma-separated fields of a non-empty line, as String.split(",") gives them. */
  function Fields(line: string): seq<string>
  {
    Split(line, ',')
  }

  /** `line.split(",")[1]` does not throw. */
  predicate HasVehicle(line: string) {
    |Fields(line)| >= 2
  }

  function Vehicle(line: string): string
    requires HasVehicle(line)
  {
    Fields(line)[1]
  }

  /** Every line has a vehicle field. */
  predicate AllHaveVehicle(lines: seq<string>) {
    forall l | l in lines :: HasVehicle(l)
  }

  /** A location line: a time of day, a vehicle, a latitude and a longitude. */
  predicate WellFormed(line: string) {
    var f := Fields(line);
    |f| >= 4 && ParseTime(f[0]).Some?
  }

  predicate AllWellFormed(lines: seq<string>) {
    forall l | l in lines :: WellFormed(l)
  }

  datatype Record = Record(time: Time, vehicle: string, lat: string, lon: string)

  /** The fields the windower reads from a line: 0 (time), 1, 2 and 3. */
  function ParseRecord(line: string): (r: Record)
    requires WellFormed(line)
    ensures HasVehicle(line) && r.vehicle == Vehicle(line)
    ensures ',' !in r.vehicle && ',' !in r.lat && ',' !in r.lon
  {
    var f := Fields(line);
    SplitPieces(line, ',');
    assert f[1] in f && f[2] in f && f[3] in f;
    Record(ParseTime(f[0]).value, f[1], f[2], f[3])
  }

  function Records(lines: seq<string>): (rs: seq<Record>)
    requires AllWellFormed(lines)
    ensures |rs| == |lines|
    ensures forall k | 0 <= k < |lines| :: rs[k] == ParseRecord(lines[k])
  {
    seq(|lines|, k requires 0 <= k < |lines| => ParseRecord(lines[k]))
  }

  // ---------------------------------------------------------------------
  // The working set: the first `max` distinct vehicles

  /** The distinct elements of `s` in order of first appearance. */
  function Distinct<T(==)>(s: seq<T>): (d: seq<T>)
    ensures forall x | x in d :: x in s
    ensures forall x | x in s :: x in d
    ensures forall i, j | 0 <= i < j < |d| :: d[i] != d[j]
  {
    if s == [] then []
    else
      var d := Distinct(s[..|s| - 1]);
      if s[|s| - 1] in d then d else d + [s[|s| - 1]]
  }

  /** Index of the first occurrence of `x` in `s`. */
  function FirstIndex<T(==)>(s: seq<T>, x: T): (k: nat)
    requires x in s
    ensures k < |s| && s[k] == x
    ensures forall j | 0 <= j < k :: s[j] != x
  {
    if s[0] == x then 0 else 1 + FirstIndex(s[1..], x)
  }

  lemma FirstIndexInPrefix<T>(s: seq<T>, v: T, x: T)
    requires x in s
    ensures FirstIndex(s + [v], x) == FirstIndex(s, x)
  {
    var k := FirstIndex(s, x);
    assert (s + [v])[k] == x;
    assert forall j | 0 <= j < k :: (s + [v])[j] == s[j];
  }

  /** Distinct lists the elements in the order of their first appearance. */
  lemma {:induction false} DistinctOrder<T>(s: seq<T>)
    ensures forall i, j | 0 <= i < j < |Distinct(s)| ::
      FirstIndex(s, Distinct(s)[i]) < FirstIndex(s, Distinct(s)[j])
  {
    if s != [] {
      var init, v := s[..|s| - 1], s[|s| - 1];
      assert s == init + [v];
      DistinctOrder(init);
      var d, d0 := Distinct(s), Distinct(init);
      forall x | x in d0 ensures FirstIndex(s, x) == FirstIndex(init, x) {
        FirstIndexInPrefix(init, v, x);
      }
      if v !in d0 {
        assert FirstIndex(s, v) == |init|;
      }
    }
  }

  /** The working set: the first `max` distinct vehicles of the stream. */
  function WorkingSet<T(==)>(s: seq<T>, max: nat): (ws: seq<T>)
    ensures |ws| <= max
    ensures ws <= Distinct(s)
    ensures |ws| < max ==> ws == Distinct(s)
  {
    var d := Distinct(s);
    if |d| <= max then d else d[..max]
  }

  /** The vehicles list update of one line (the doOnNext step). */
  function Track<T(==)>(vehicles: seq<T>, v: T, max: nat): seq<T>
  {
    if |vehicles| < max && v !in vehicles then vehicles + [v] else vehicles
  }

  /** One doOnNext step turns the working set of a prefix into that of the next prefix. */
  lemma TrackWorkingSet<T>(s: seq<T>, v: T, max: nat)
    ensures Track(WorkingSet(s, max), v, max) == WorkingSet(s + [v], max)
  {
    assert (s + [v])[..|s|] == s;
    var d := Distinct(s);
    if v in d {
      assert Distinct(s + [v]) == d;
    } else {
      assert Distinct(s + [v]) == d + [v];
      if |d| >= max {
        assert (d + [v])[..max] == d[..max];
      }
    }
  }

  /** Distinct is monotone along prefixes. */
  lemma {:induction false} DistinctPrefix<T>(p: seq<T>, s: seq<T>)
    requires p <= s
    ensures Distinct(p) <= Distinct(s)
    decreases |s|
  {
    if |p| < |s| {
      assert p <= s[..|s| - 1];
      DistinctPrefix(p, s[..|s| - 1]);
    } else {
      assert p == s;
    }
  }

  /**
   * Processed left to right, a vehicle is in the list right after one of
   * its lines is seen iff it is in the final working set: the list only
   * grows, and a vehicle is added at its first line or never.
   */
  lemma SeenIffFinal<T>(p: seq<T>, s: seq<T>, max: nat)
    requires p <= s && p != []
    ensures p[|p| - 1] in WorkingSet(p, max) <==> p[|p| - 1] in WorkingSet(s, max)
  {
    var v := p[|p| - 1];
    DistinctPrefix(p, s);
    var dp, ds := Distinct(p), Distinct(s);
    var wp, wsFinal := WorkingSet(p, max), WorkingSet(s, max);
    if v in wp {
      var j :| 0 <= j < |wp| && wp[j] == v;
      assert ds[j] == v;
      assert j < |wsFinal| ==> wsFinal[j] == v;
    }
    if v in wsFinal {
      var k :| 0 <= k < |wsFinal| && wsFinal[k] == v;
      assert v in p;
      var j :| 0 <= j < |dp| && dp[j] == v;
      assert ds[j] == v && ds[k] == v;
      assert j == k;
      assert wp[j] == v;
    }
  }

  /** The vehicle of every line. */
  function Vehicles(lines: seq<string>): (vs: seq<string>)
    requires AllHaveVehicle(lines)
    ensures |vs| == |lines|
    ensures forall k | 0 <= k < |lines| :: vs[k] == Vehicle(lines[k])
  {
    seq(|lines|, k requires 0 <= k < |lines| => Vehicle(lines[k]))
  }

  /** The lines whose vehicle is in `ws`, in their order. */
  function KeepTracked(lines: seq<string>, ws: seq<string>): (r: seq<string>)
    requires AllHaveVehicle(lines)
    ensures |r| <= |lines|
  {
    if lines == [] then []
    else
      var init, last := lines[..|lines| - 1], lines[|lines| - 1];
      assert forall l | l in init :: l in lines;
      KeepTracked(init, ws) + (if Vehicle(last) in ws then [last] else [])
  }

  /** A line is kept exactly when it is a line of the input whose vehicle is in `ws`. */
  lemma {:induction false} KeepTrackedMembers(lines: seq<string>, ws: seq<string>)
    requires AllHaveVehicle(lines)
    ensures forall l | l in KeepTracked(lines, ws) :: l in lines && Vehicle(l) in ws
    ensures forall l | l in lines && Vehicle(l) in ws :: l in KeepTracked(lines, ws)
  {
    if lines != [] {
      var init, last := lines[..|lines| - 1], lines[|lines| - 1];
      PrefixHasVehicle(init, lines);
      KeepTrackedMembers(init, ws);
      assert lines == init + [last];
    }
  }

  /** Filtering distributes over concatenation, so the kept lines stay in file order. */
  lemma {:induction false} KeepTrackedAppend(a: seq<string>, b: seq<string>, ws: seq<string>)
    requires AllHaveVehicle(a) && AllHaveVehicle(b)
    ensures AllHaveVehicle(a + b)
    ensures KeepTracked(a + b, ws) == KeepTracked(a, ws) + KeepTracked(b, ws)
    decreases |b|
  {
    if b == [] {
      assert a + b == a;
    } else {
      var init, last := b[..|b| - 1], b[|b| - 1];
      PrefixHasVehicle(init, b);
      KeepTrackedAppend(a, init, ws);
      var ab := a + b;
      AppendHasVehicle(a, b);
      assert ab[..|ab| - 1] == a + init;
      assert ab[|ab| - 1] == last;
      var tail := if Vehicle(last) in ws then [last] else [];
      KeepTrackedLast(ab, ws);
      KeepTrackedLast(b, ws);
      AppendAssoc(KeepTracked(a, ws), KeepTracked(init, ws), tail);
    }
  }

  /** The lines openLocationsFile keeps: normalised, and restricted to the working set. */
  function Located(lines: seq<string>, max: nat): seq<string>
    requires AllHaveVehicle(Normalise(lines))
  {
    var n := Normalise(lines);
    KeepTracked(n, WorkingSet(Vehicles(n), max))
  }

  /** Normalising one more file line appends that line trimmed, unless it is empty. */
  lemma NormaliseStep(lines: seq<string>, i: nat)
    requires i < |lines|
    ensures Normalise(lines[..i + 1]) ==
      Normalise(lines[..i]) + (if Trim(lines[i]) == "" then [] else [Trim(lines[i])])
    ensures Normalise(lines[..i + 1]) <= Normalise(lines)
  {
    assert lines[..i + 1][..i] == lines[..i];
    NormalisePrefix(lines, i + 1);
  }

  lemma PrefixHasVehicle(p: seq<string>, s: seq<string>)
    requires p <= s && AllHaveVehicle(s)
    ensures AllHaveVehicle(p)
  {
    forall l | l in p ensures HasVehicle(l) {
      var k :| 0 <= k < |p| && p[k] == l;
      assert s[k] == l;
    }
  }

  /** The last line is kept or dropped after the lines before it. */
  lemma KeepTrackedLast(lines: seq<string>, ws: seq<string>)
    requires lines != [] && AllHaveVehicle(lines)
    ensures AllHaveVehicle(lines[..|lines| - 1]) && HasVehicle(lines[|lines| - 1])
    ensures KeepTracked(lines, ws) ==
      KeepTracked(lines[..|lines| - 1], ws) + (if Vehicle(lines[|lines| - 1]) in ws then [lines[|lines| - 1]] else [])
  {
    PrefixHasVehicle(lines[..|lines| - 1], lines);
  }

  lemma AppendHasVehicle(a: seq<string>, b: seq<string>)
    requires AllHaveVehicle(a) && AllHaveVehicle(b)
    ensures AllHaveVehicle(a + b)
  {
    forall l | l in a + b ensures HasVehicle(l) {
      assert l in a || l in b;
    }
  }

  /** The vehicle bookkeeping of one non-empty line `line` that follows `before` in `all`. */
  lemma TrackStep(before: seq<string>, line: string, all: seq<string>, max: nat)
    requires before + [line] <= all && AllHaveVehicle(all)
    ensures AllHaveVehicle(before + [line]) && HasVehicle(line)
    ensures var after, final := before + [line], WorkingSet(Vehicles(all), max);
      WorkingSet(Vehicles(after), max) == Track(WorkingSet(Vehicles(before), max), Vehicle(line), max) &&
      KeepTracked(after, final) ==
        KeepTracked(before, final) + (if Vehicle(line) in WorkingSet(Vehicles(after), max) then [line] else [])
  {
    var after := before + [line];
    PrefixHasVehicle(after, all);
    assert after[|before|] == line;
    var vehicle := Vehicle(line);
    assert Vehicles(after) == Vehicles(before) + [vehicle];
    TrackWorkingSet(Vehicles(before), vehicle, max);
    assert Vehicles(after) == Vehicles(all)[..|after|];
    SeenIffFinal(Vehicles(after), Vehicles(all), max);
    assert after[..|after| - 1] == before;
  }

  /** TrackStep for the line at index `i`. */
  lemma TrackAt(ls: seq<string>, i: nat, max: nat)
    requires i < |ls| && AllHaveVehicle(ls)
    ensures AllHaveVehicle(ls[..i]) && AllHaveVehicle(ls[..i + 1]) && HasVehicle(ls[i])
    ensures var final := WorkingSet(Vehicles(ls), max);
      WorkingSet(Vehicles(ls[..i + 1]), max) == Track(WorkingSet(Vehicles(ls[..i]), max), Vehicle(ls[i]), max) &&
      KeepTracked(ls[..i + 1], final) ==
        KeepTracked(ls[..i], final) + (if Vehicle(ls[i]) in WorkingSet(Vehicles(ls[..i + 1]), max) then [ls[i]] else [])
  {
    assert ls[..i + 1] == ls[..i] + [ls[i]];
    TrackStep(ls[..i], ls[i], ls, max);
    PrefixHasVehicle(ls[..i], ls);
  }

  /** The trim and non-empty stages of openLocationsFile: one pass over the file lines. */
  method TrimLines(lines: seq<string>) returns (trimmed: seq<string>)
    ensures trimmed == Normalise(lines)
  {
    trimmed := [];
    for i := 0 to |lines|
      invariant trimmed == Normalise(lines[..i])
    {
      var line := Trim(lines[i]);
      NormaliseStep(lines, i);
      if line != "" {
        trimmed := trimmed + [line];
      }
    }
    assert lines[..|lines|] == lines;
  }

  /**
   * The doOnNext and filter stages of openLocationsFile, fused as the
   * stream runs them: each line first grows the vehicles list, then is kept
   * when its vehicle is in the list at that moment. The result is filtering
   * by the final working set.
   */
  method TrackAndKeep(ls: seq<string>, maxVehicles: nat) returns (kept: seq<string>)
    requires AllHaveVehicle(ls)
    ensures kept == KeepTracked(ls, WorkingSet(Vehicles(ls), maxVehicles))
  {
    var vehicles: seq<string> := [];
    kept := [];
    ghost var final := WorkingSet(Vehicles(ls), maxVehicles);
    for i := 0 to |ls|
      invariant AllHaveVehicle(ls[..i])
      invariant vehicles == WorkingSet(Vehicles(ls[..i]), maxVehicles)
      invariant kept == KeepTracked(ls[..i], final)
    {
      var line := ls[i];
      TrackAt(ls, i, maxVehicles);
      var vehicle := Vehicle(line);
      if |vehicles| < maxVehicles && vehicle !in vehicles {
        vehicles := vehicles + [vehicle];
      }
      if vehicle in vehicles {
        kept := kept + [line];
      }
    }
    assert ls[..|ls|] == ls;
  }

  /**
   * openLocationsFile: trims, drops empty lines, grows the vehicles list
   * and keeps the lines whose vehicle is in it. A negative vehicle count is
   * the IllegalArgumentException of `new ArrayList<>(maxVehicles)`.
   */
  method OpenLocations(lines: seq<string>, maxVehicles: int) returns (located: Option<seq<string>>)
    requires AllHaveVehicle(Normalise(lines))
    ensures located.None? <==> maxVehicles < 0
    ensures located.Some? ==> located.value == Located(lines, maxVehicles)
  {
    if maxVehicles < 0 {
      return None;
    }
    var trimmed := TrimLines(lines);
    var kept := TrackAndKeep(trimmed, maxVehicles);
    return Some(kept);
  }

  // ---------------------------------------------------------------------
  // Windows

  /** Length of the longest prefix of `rs` whose times are all before `limit`. */
  function RunBefore(rs: seq<Record>, limit: Time): (n: nat)
    ensures n <= |rs|
    ensures forall k | 0 <= k < n :: IsBefore(rs[k].time, limit)
    ensures n < |rs| ==> !IsBefore(rs[n].time, limit)
  {
    if rs == [] || !IsBefore(rs[0].time, limit) then 0 else 1 + RunBefore(rs[1..], limit)
  }

  /**
   * The windows of a record stream: each opens at its first record (the
   * delimiter) and runs while the times are before the delimiter plus
   * `rate` minutes; the first record that is not opens the next window.
   */
  function Windows(rs: seq<Record>, rate: int): seq<seq<Record>>
    decreases |rs|
  {
    if rs == [] then []
    else
      var n := FirstWindow(rs, rate);
      [rs[..n]] + Windows(rs[n..], rate)
  }

  /** The length of the first window: its delimiter and the run before its limit. */
  function FirstWindow(rs: seq<Record>, rate: int): (n: nat)
    requires rs != []
    ensures 1 <= n <= |rs|
  {
    1 + RunBefore(rs[1..], PlusMinutes(rs[0].time, rate))
  }

  /** Every record after the first of `w` is before its first record plus `rate` minutes. */
  ghost predicate BeforeLimit(w: seq<Record>, rate: int) {
    forall k | 1 <= k < |w| :: IsBefore(w[k].time, PlusMinutes(w[0].time, rate))
  }

  /** Every window is non-empty and its records are before its delimiter plus `rate` minutes. */
  ghost predicate Delimited(ws: seq<seq<Record>>, rate: int) {
    forall j | 0 <= j < |ws| ::
      ws[j] != [] && forall k | 1 <= k < |ws[j]| :: IsBefore(ws[j][k].time, PlusMinutes(ws[j][0].time, rate))
  }

  /** Window `next` opens at a record that is not before the delimiter of `w` plus `rate` minutes. */
  ghost predicate Cut(w: seq<Record>, next: seq<Record>, rate: int) {
    w != [] && next != [] && !IsBefore(next[0].time, PlusMinutes(w[0].time, rate))
  }

  /** The first record of every later window is not before the previous delimiter plus `rate` minutes. */
  ghost predicate CutBefore(ws: seq<seq<Record>>, rate: int) {
    forall i, j | 0 <= i < j < |ws| && j == i + 1 :: Cut(ws[i], ws[j], rate)
  }

  /**
   * The windows partition the stream: concatenated they give it back,
   * none is empty, every record of a window is before its delimiter plus
   * `rate` minutes, and the first record of every later window is not
   * before the previous delimiter plus `rate` minutes.
   */
  lemma WindowsPartition(rs: seq<Record>, rate: int)
    ensures Concat(Windows(rs, rate)) == rs
    ensures Delimited(Windows(rs, rate), rate)
    ensures CutBefore(Windows(rs, rate), rate)
  {
    WindowsConcat(rs, rate);
    WindowsDelimited(rs, rate);
    WindowsCut(rs, rate);
  }

  /** The windows concatenate back to the stream. */
  lemma {:induction false} WindowsConcat(rs: seq<Record>, rate: int)
    ensures Concat(Windows(rs, rate)) == rs
    decreases |rs|
  {
    if rs != [] {
      var n := FirstWindow(rs, rate);
      WindowsConcat(rs[n..], rate);
      ConcatCons(rs[..n], Windows(rs[n..], rate));
      TakeDrop(rs, n);
    }
  }

  /** Every window is non-empty and stays before its delimiter plus `rate` minutes. */
  lemma {:induction false} WindowsDelimited(rs: seq<Record>, rate: int)
    ensures Delimited(Windows(rs, rate), rate)
    decreases |rs|
  {
    if rs != [] {
      var limit := PlusMinutes(rs[0].time, rate);
      var n := 1 + RunBefore(rs[1..], limit);
      var first, rest := rs[..n], Windows(rs[n..], rate);
      WindowsDelimited(rs[n..], rate);
      forall k | 1 <= k < n ensures IsBefore(first[k].time, limit) {
        assert rs[1..][k - 1] == first[k];
      }
      var ws: seq<seq<Record>> := Windows(rs, rate);
      assert ws == [first] + rest;
      forall j | 0 <= j < |ws|
        ensures ws[j] != [] && forall k | 1 <= k < |ws[j]| :: IsBefore(ws[j][k].time, PlusMinutes(ws[j][0].time, rate))
      {
        if j > 0 {
          assert ws[j] == rest[j - 1];
        }
      }
    }
  }

  /** The first record of each later window is not before the previous delimiter plus `rate` minutes. */
  lemma {:induction false} WindowsCut(rs: seq<Record>, rate: int)
    ensures CutBefore(Windows(rs, rate), rate)
    decreases |rs|
  {
    if rs != [] {
      var n := FirstWindow(rs, rate);
      WindowsCut(rs[n..], rate);
      if n < |rs| {
        NextWindowStart(rs, rate);
      }
      assert rs[..n][0] == rs[0];
      CutBeforeCons(rs[..n], Windows(rs[n..], rate), rate);
    }
  }

  /** A window followed by windows whose first record is past its limit keeps CutBefore. */
  lemma CutBeforeCons(first: seq<Record>, rest: seq<seq<Record>>, rate: int)
    requires first != [] && CutBefore(rest, rate)
    requires rest != [] ==> rest[0] != [] && !IsBefore(rest[0][0].time, PlusMinutes(first[0].time, rate))
    ensures CutBefore([first] + rest, rate)
  {
    var ws: seq<seq<Record>> := [first] + rest;
    forall i, j | 0 <= i < j < |ws| && j == i + 1
      ensures Cut(ws[i], ws[j], rate)
    {
      if i > 0 {
        assert ws[i] == rest[i - 1] && ws[j] == rest[j - 1];
        assert Cut(rest[i - 1], rest[j - 1], rate);
      }
    }
  }

  /** The record after the first window opens the second one, and is not before the first limit. */
  lemma NextWindowStart(rs: seq<Record>, rate: int)
    requires rs != [] && FirstWindow(rs, rate) < |rs|
    ensures var n := FirstWindow(rs, rate);
      && Windows(rs[n..], rate) != [] && Windows(rs[n..], rate)[0] != []
      && Windows(rs[n..], rate)[0][0] == rs[n]
      && !IsBefore(rs[n].time, PlusMinutes(rs[0].time, rate))
  {
    var n := FirstWindow(rs, rate);
    var t := rs[n..];
    var m := FirstWindow(t, rate);
    assert Windows(t, rate) == [t[..m]] + Windows(t[m..], rate);
    assert t[..m][0] == rs[n];
    assert rs[1..][n - 1] == rs[n];
  }

  /** A run that stays before its limit, cut by a record that is not, is a whole window. */
  lemma WindowsAfterCut(current: seq<Record>, rest: seq<Record>, rate: int)
    requires current != []
    requires BeforeLimit(current, rate)
    requires rest == [] || !IsBefore(rest[0].time, PlusMinutes(current[0].time, rate))
    ensures Windows(current + rest, rate) == [current] + Windows(rest, rate)
  {
    var rs := current + rest;
    var n := RunBefore(rs[1..], PlusMinutes(current[0].time, rate));
    assert forall j | 0 <= j < |current| - 1 :: rs[1..][j] == current[j + 1];
    assert rest != [] ==> rs[1..][|current| - 1] == rest[0];
    assert n == |current| - 1;
    assert rs[..n + 1] == current;
    assert rs[n + 1..] == rest;
  }

  /** Moving the next record into the open window leaves the windows to come unchanged. */
  lemma StayStep(rs: seq<Record>, i: nat, current: seq<Record>, rate: int)
    requires i < |rs| && BeforeLimit(current, rate)
    requires current != [] ==> IsBefore(rs[i].time, PlusMinutes(current[0].time, rate))
    ensures Windows(current + rs[i..], rate) == Windows((current + [rs[i]]) + rs[i + 1..], rate)
    ensures BeforeLimit(current + [rs[i]], rate)
  {
    var grown := current + [rs[i]];
    assert current + rs[i..] == grown + rs[i + 1..];
    if current != [] {
      var limit := PlusMinutes(current[0].time, rate);
      assert grown[0] == current[0];
      forall k | 1 <= k < |grown| ensures IsBefore(grown[k].time, limit) {
        if k < |current| {
          assert grown[k] == current[k];
        }
      }
    }
  }

  /** A record not before the open window's limit closes that window. */
  lemma CutStep(rs: seq<Record>, i: nat, current: seq<Record>, rate: int)
    requires i < |rs| && current != []
    requires BeforeLimit(current, rate)
    requires !IsBefore(rs[i].time, PlusMinutes(current[0].time, rate))
    ensures Windows(current + rs[i..], rate) == [current] + Windows([rs[i]] + rs[i + 1..], rate)
  {
    assert rs[i..] == [rs[i]] + rs[i + 1..];
    WindowsAfterCut(current, rs[i..], rate);
  }

  /**
   * windowUntil with cutBefore = true over the cursor of one client: with
   * no delimiter the record sets it and stays; a record before the
   * delimiter plus `rate` minutes stays; any other record becomes the new
   * delimiter and opens the next window.
   */
  method WindowUntil(rs: seq<Record>, rate: int) returns (ws: seq<seq<Record>>)
    ensures ws == Windows(rs, rate)
  {
    var delimiter: Option<Time> := None;
    var current: seq<Record> := [];
    ws := [];
    assert current + rs[0..] == rs;
    for i := 0 to |rs|
      invariant delimiter.None? <==> current == []
      invariant current != [] ==> delimiter == Some(current[0].time)
      invariant BeforeLimit(current, rate)
      invariant Windows(rs, rate) == ws + Windows(current + rs[i..], rate)
    {
      var r := rs[i];
      var cutBefore := false;
      if delimiter.None? {
        delimiter := Some(r.time);
      } else if !IsBefore(r.time, PlusMinutes(delimiter.value, rate)) {
        delimiter := Some(r.time);
        cutBefore := true;
      }
      if cutBefore {
        CutStep(rs, i, current, rate);
        AppendAssoc(ws, [current], Windows([r] + rs[i + 1..], rate));
        ws := ws + [current];
        current := [r];
      } else {
        StayStep(rs, i, current, rate);
        current := current + [r];
      }
    }
    if current != [] {
      WindowsAfterCut(current, [], rate);
      assert current + rs[|rs|..] == current + [];
      AppendAssoc(ws, [current], []);
      ws := ws + [current];
    } else {
      assert current + rs[|rs|..] == [];
    }
  }

  /**
   * The same-day wrap: when the limit of a window passes midnight, a later
   * time of that day is not before it, so it opens a new window.
   */
  lemma WrappedLimitCuts(rs: seq<Record>, rate: int)
    requires |rs| >= 2 && 0 <= rate < MinutesPerDay
    requires rs[0].time + 60 * rate >= SecondsPerDay
    requires rs[0].time <= rs[1].time
    ensures Windows(rs, rate)[0] == [rs[0]]
  {
    PlusMinutesWraps(rs[0].time, rate, rs[1].time);
    assert rs[1..][0] == rs[1];
  }

  // ---------------------------------------------------------------------
  // Truncation and formatting of each window

  /** The frame of one record. */
  function Format(r: Record): string
  {
    "m2," + r.vehicle + "," + r.lat + "," + r.lon
  }

  function FormatAll(rs: seq<Record>): (fs: seq<string>)
    ensures |fs| == |rs|
    ensures forall k | 0 <= k < |rs| :: fs[k] == Format(rs[k])
  {
    seq(|rs|, k requires 0 <= k < |rs| => Format(rs[k]))
  }

  /** The records of a window at index below `max`. */
  function Truncate(w: seq<Record>, max: nat): (t: seq<Record>)
    ensures t <= w && |t| == Min(max, |w|)
  {
    w[..Min(max, |w|)]
  }

  /** What a client receives: window after window, the first `max` records of each, formatted. */
  function Emit(ws: seq<seq<Record>>, max: nat): seq<string>
  {
    if ws == [] then [] else FormatAll(Truncate(ws[0], max)) + Emit(ws[1..], max)
  }

  /** Every frame sent comes from a record of the windows. */
  lemma {:induction false} EmitFromRecords(ws: seq<seq<Record>>, max: nat)
    ensures forall f | f in Emit(ws, max) :: exists r :: r in Concat(ws) && f == Format(r)
  {
    if ws != [] {
      EmitFromRecords(ws[1..], max);
      var head := FormatAll(Truncate(ws[0], max));
      forall f | f in Emit(ws, max) ensures exists r :: r in Concat(ws) && f == Format(r) {
        if f in head {
          var k :| 0 <= k < |head| && head[k] == f;
          assert ws[0][k] in Concat(ws);
        } else {
          assert f in Emit(ws[1..], max);
          var r :| r in Concat(ws[1..]) && f == Format(r);
          assert r in Concat(ws);
        }
      }
    }
  }

  /** Windows no longer than `max` are sent whole: the client then gets every record, in order. */
  lemma {:induction false} EmitWhole(ws: seq<seq<Record>>, max: nat)
    requires forall w | w in ws :: |w| <= max
    ensures Emit(ws, max) == FormatAll(Concat(ws))
  {
    if ws != [] {
      EmitWhole(ws[1..], max);
      assert Truncate(ws[0], max) == ws[0];
      var a, b := ws[0], Concat(ws[1..]);
      assert FormatAll(a + b) == FormatAll(a) + FormatAll(b);
    }
  }

  /** Each window contributes exactly min(max, its length) frames. */
  lemma {:induction false} EmitCount(ws: seq<seq<Record>>, max: nat, w: seq<Record>)
    ensures Emit(ws + [w], max) == Emit(ws, max) + FormatAll(Truncate(w, max))
  {
    if ws != [] {
      assert (ws + [w])[1..] == ws[1..] + [w];
      EmitCount(ws[1..], max, w);
    } else {
      assert ([] + [w])[1..] == [];
    }
  }

  /** A sent frame splits back into its tag and the three fields of its record. */
  lemma FormatSplits(r: Record)
    requires ',' !in r.vehicle && ',' !in r.lat && ',' !in r.lon
    requires r.lon != ""
    ensures Split(Format(r), ',') == ["m2", r.vehicle, r.lat, r.lon]
  {
    var fs := ["m2", r.vehicle, r.lat, r.lon];
    assert Join(fs[3..], ',') == r.lon;
    assert Join(fs[2..], ',') == r.lat + "," + r.lon;
    assert Join(fs[1..], ',') == r.vehicle + "," + r.lat + "," + r.lon;
    assert Join(fs, ',') == Format(r);
    SplitJoin(fs, ',');
  }

  /** The frames one client receives from the replayed locations. */
  function ClientFrames(located: seq<string>, max: nat, rate: int): seq<string>
    requires AllWellFormed(located)
  {
    Emit(Windows(Records(located), rate), max)
  }

  /**
   * End to end: every frame a client receives formats a location line of
   * the file whose vehicle is in the working set, so a vehicle beyond the
   * first `max` distinct ones never reaches a client.
   */
  lemma ReplayedVehiclesAreTracked(lines: seq<string>, max: nat, rate: int)
    requires AllHaveVehicle(Normalise(lines)) && AllWellFormed(Located(lines, max))
    ensures forall f | f in ClientFrames(Located(lines, max), max, rate) ::
      exists r :: r in Records(Located(lines, max)) && f == Format(r)
        && r.vehicle in WorkingSet(Vehicles(Normalise(lines)), max)
  {
    LocatedTracked(lines, max);
    var tracked := WorkingSet(Vehicles(Normalise(lines)), max);
    var located := Located(lines, max);
    var rs := Records(located);
    FramesFromRecords(located, max, rate);
    RecordsTracked(located, tracked);
    forall f | f in ClientFrames(located, max, rate)
      ensures exists r :: r in rs && f == Format(r) && r.vehicle in tracked
    {
      var r :| r in rs && f == Format(r);
      assert r.vehicle in tracked;
    }
  }

  /** The records of lines whose vehicles are in `tracked` have their vehicles in `tracked`. */
  lemma RecordsTracked(located: seq<string>, tracked: seq<string>)
    requires AllWellFormed(located)
    requires forall l | l in located :: Vehicle(l) in tracked
    ensures forall r | r in Records(located) :: r.vehicle in tracked
  {
    var rs := Records(located);
    forall r | r in rs ensures r.vehicle in tracked {
      var k :| 0 <= k < |rs| && rs[k] == r;
      assert located[k] in located;
    }
  }

  /** The located lines are well formed and belong to vehicles of the working set. */
  lemma LocatedTracked(lines: seq<string>, max: nat)
    requires AllHaveVehicle(Normalise(lines))
    ensures forall l | l in Located(lines, max) :: l in Normalise(lines)
    ensures AllWellFormed(Normalise(lines)) ==> AllWellFormed(Located(lines, max))
    ensures forall l | l in Located(lines, max) :: Vehicle(l) in WorkingSet(Vehicles(Normalise(lines)), max)
  {
    var n := Normalise(lines);
    var located := Located(lines, max);
    assert located == KeepTracked(n, WorkingSet(Vehicles(n), max));
    KeepTrackedMembers(n, WorkingSet(Vehicles(n), max));
    if AllWellFormed(n) {
      forall l | l in located ensures WellFormed(l) {
        assert l in n;
      }
    }
  }

  /** Every frame a client receives formats one of the records it replays. */
  lemma FramesFromRecords(located: seq<string>, max: nat, rate: int)
    requires AllWellFormed(located)
    ensures forall f | f in ClientFrames(located, max, rate) :: exists r :: r in Records(located) && f == Format(r)
  {
    var rs := Records(located);
    WindowsPartition(rs, rate);
    EmitFromRecords(Windows(rs, rate), max);
  }

  // ---------------------------------------------------------------------
  // The Lab2 singleton and its client registry

  class Replay {
    const maxVehicles: nat
    const refreshRate: int
    /** The replayed content: the located lines of the file. */
    const locations: seq<string>
    /** SUBSCRIPTIONS: the subscription of each client, by session id. */
    var subscriptions: map<string, Disposable>
    /** TIME_DELIMITER: the window cursor of each client, by session id. */
    var timeDelimiter: map<string, Option<Time>>
    /** The subscriptions that have been disposed. */
    var disposed: set<Disposable>
    var nextSerial: nat

    ghost predicate Valid()
      reads this
    {
      && AllWellFormed(locations)
      && subscriptions.Keys == timeDelimiter.Keys
      && (forall id | id in subscriptions :: subscriptions[id].serial < nextSerial && subscriptions[id] !in disposed)
      && (forall a, b | a in subscriptions && b in subscriptions && a != b :: subscriptions[a] != subscriptions[b])
      && (forall h | h in disposed :: h.serial < nextSerial)
    }

    constructor (maxVehicles: nat, refreshRate: int, locations: seq<string>)
      requires AllWellFormed(locations)
      ensures Valid()
      ensures this.maxVehicles == maxVehicles && this.refreshRate == refreshRate && this.locations == locations
      ensures subscriptions == map[] && timeDelimiter == map[] && disposed == {}
    {
      this.maxVehicles := maxVehicles;
      this.refreshRate := refreshRate;
      this.locations := locations;
      subscriptions := map[];
      timeDelimiter := map[];
      disposed := {};
      nextSerial := 0;
    }

    /**
     * getInstance: the settings from the command line and the located
     * lines of `file`, the content of the file Configure(args).filename
     * names; null when the vehicle count is negative.
     */
    static method GetInstance(args: seq<string>, file: seq<string>) returns (lab2: Replay?)
      requires AllHaveVehicle(Normalise(file))
      requires Configure(args).maxVehicles >= 0 ==> AllWellFormed(Located(file, Configure(args).maxVehicles))
      ensures lab2 == null <==> Configure(args).maxVehicles < 0
      ensures lab2 != null ==> fresh(lab2) && lab2.Valid()
      ensures lab2 != null ==> lab2.maxVehicles == Configure(args).maxVehicles
      ensures lab2 != null ==> lab2.refreshRate == Configure(args).refreshRate
      ensures lab2 != null ==> lab2.locations == Located(file, Configure(args).maxVehicles)
      ensures lab2 != null ==> lab2.subscriptions == map[] && lab2.timeDelimiter == map[]
    {
      var config := Configure(args);
      var located := OpenLocations(file, config.maxVehicles);
      if located.None? {
        return null;
      }
      ReplayedVehiclesAreTracked(file, config.maxVehicles, config.refreshRate);
      lab2 := new Replay(config.maxVehicles, config.refreshRate, located.value);
    }

    /** subscribeClient: seeds the client's cursor empty and records its subscription. */
    method SubscribeClient(session: Session)
      requires Valid()
      modifies this
      ensures Valid()
      ensures timeDelimiter == old(timeDelimiter)[session.id := None]
      ensures subscriptions == old(subscriptions)[session.id := Disposable(old(nextSerial))]
      ensures disposed == old(disposed)
    {
      timeDelimiter := timeDelimiter[session.id := None];
      var subscription := Disposable(nextSerial);
      nextSerial := nextSerial + 1;
      subscriptions := subscriptions[session.id := subscription];
    }

    /**
     * The consumer of one frame: it is sent; when the send fails the
     * subscription is disposed and the client leaves both maps.
     */
    method OnNext(session: Session, msg: string)
      requires Valid() && session.id in subscriptions
      modifies this, session
      ensures Valid()
      ensures session.frames == old(session.frames) + if old(session.open) then [Frame(msg, !session.ioFaulty)] else []
      ensures session.open == old(session.open) && session.ioFaulty == old(session.ioFaulty)
      ensures session.closedWith == old(session.closedWith)
      ensures old(session.open) ==>
        subscriptions == old(subscriptions) && timeDelimiter == old(timeDelimiter) && disposed == old(disposed)
      ensures !old(session.open) ==>
        && subscriptions == old(subscriptions) - {session.id}
        && timeDelimiter == old(timeDelimiter) - {session.id}
        && disposed == old(disposed) + {old(subscriptions)[session.id]}
    {
      var ok := WsPacket.Send(session, msg);
      if !ok {
        disposed := disposed + {subscriptions[session.id]};
        subscriptions := subscriptions - {session.id};
        timeDelimiter := timeDelimiter - {session.id};
      }
    }

    /**
     * The error consumer: the session is closed with SERVER_ERROR (an
     * IOException from close is swallowed) and the client leaves both maps.
     */
    method OnError(session: Session)
      requires Valid()
      modifies this, session
      ensures Valid()
      ensures session.ioFaulty ==> session.open == old(session.open) && session.closedWith == old(session.closedWith)
      ensures !session.ioFaulty ==> !session.open && session.closedWith == Some(ServerError)
      ensures session.frames == old(session.frames) && session.ioFaulty == old(session.ioFaulty)
      ensures subscriptions == old(subscriptions) - {session.id}
      ensures timeDelimiter == old(timeDelimiter) - {session.id}
      ensures disposed == old(disposed)
    {
      var thrown := session.Close(ServerError);
      subscriptions := subscriptions - {session.id};
      timeDelimiter := timeDelimiter - {session.id};
    }

    /** The registry is as it was. */
    ghost predicate Unchanged(subs: map<string, Disposable>, cursors: map<string, Option<Time>>, gone: set<Disposable>)
      reads this
    {
      subscriptions == subs && timeDelimiter == cursors && disposed == gone
    }

    /** Client `id` has left the registry and its subscription is disposed. */
    ghost predicate Dropped(id: string, subs: map<string, Disposable>, cursors: map<string, Option<Time>>, gone: set<Disposable>)
      requires id in subs
      reads this
    {
      subscriptions == subs - {id} && timeDelimiter == cursors - {id} && disposed == gone + {subs[id]}
    }

    /**
     * The subscriber of one client over the frames `frames`: each frame is
     * sent while the client is subscribed. The client closes its end before
     * frame `closeAt`. Every frame before that is sent in order; the first
     * failed send ends the subscription.
     */
    method SendAll(session: Session, frames: seq<string>, closeAt: nat)
      requires Valid() && session.id in subscriptions
      modifies this, session
      ensures Valid()
      ensures var k := if old(session.open) then Min(closeAt, |frames|) else 0;
        && session.frames == old(session.frames) + Attempts(frames[..k], !session.ioFaulty)
        && (k == |frames| ==> Unchanged(old(subscriptions), old(timeDelimiter), old(disposed)))
        && (k < |frames| ==> Dropped(session.id, old(subscriptions), old(timeDelimiter), old(disposed)))
      ensures session.ioFaulty == old(session.ioFaulty) && session.closedWith == old(session.closedWith)
    {
      ghost var k := if session.open then Min(closeAt, |frames|) else 0;
      var i := 0;
      while i < |frames| && session.id in subscriptions
        invariant Valid()
        invariant 0 <= i <= |frames| && i <= k + 1
        invariant session.id in subscriptions <==> i <= k
        invariant session.open <==> old(session.open) && i <= closeAt
        invariant session.ioFaulty == old(session.ioFaulty) && session.closedWith == old(session.closedWith)
        invariant i <= k ==> session.frames == old(session.frames) + Attempts(frames[..i], !session.ioFaulty)
        invariant i > k ==> session.frames == old(session.frames) + Attempts(frames[..k], !session.ioFaulty)
        invariant i <= k ==> Unchanged(old(subscriptions), old(timeDelimiter), old(disposed))
        invariant i > k ==> Dropped(session.id, old(subscriptions), old(timeDelimiter), old(disposed))
        decreases |frames| - i
      {
        if i == closeAt {
          session.PeerClose();
        }
        OnNext(session, frames[i]);
        if i < k {
          AttemptsStep(frames, i, !session.ioFaulty);
          AppendAssoc(old(session.frames), Attempts(frames[..i], !session.ioFaulty), [Frame(frames[i], !session.ioFaulty)]);
        }
        i := i + 1;
      }
    }

    /**
     * One client's whole replay: the windows of the locations, truncated
     * and formatted, sent frame by frame while the client is subscribed.
     */
    method Deliver(session: Session, closeAt: nat)
      requires Valid() && session.id in subscriptions
      modifies this, session
      ensures Valid()
      ensures var frames := ClientFrames(locations, maxVehicles, refreshRate);
        var k := if old(session.open) then Min(closeAt, |frames|) else 0;
        && session.frames == old(session.frames) + Attempts(frames[..k], !session.ioFaulty)
        && (k == |frames| ==> Unchanged(old(subscriptions), old(timeDelimiter), old(disposed)))
        && (k < |frames| ==> Dropped(session.id, old(subscriptions), old(timeDelimiter), old(disposed)))
      ensures session.ioFaulty == old(session.ioFaulty) && session.closedWith == old(session.closedWith)
    {
      var windows := WindowUntil(Records(locations), refreshRate);
      var frames := Emit(windows, maxVehicles);
      SendAll(session, frames, closeAt);
    }
  }
}
