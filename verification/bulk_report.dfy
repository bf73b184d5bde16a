/** The data part of the bulk session report: sessions are grouped by teacher
    (in order of first appearance), each teacher gets a ranking entry with the
    number of sessions and the average final score rounded to two decimals,
    and the rankings are sorted by average, highest first. The drawing is not
    modelled. */
module BulkReport {
  import opened Wrappers

  // ---------------------------------------------------------------------------
  // Sessions and keys
  // ---------------------------------------------------------------------------

  /** A session as the report reads it: the owner's id string, name and email
      (`None` when missing or empty) and the final score (`None` when the
      score report or its score is missing). */
  datatype BulkSession = BulkSession(userId: Option<string>, userName: Option<string>, userEmail: Option<string>,
                                     finalScore: Option<real>)

  /** `s.userId?._id?.toString() || "unknown"`. */
  function Key(s: BulkSession): string {
    OrElse(s.userId, "unknown")
  }

  /** `s.scoreReport?.finalScore || 0`: a missing score counts as 0. */
  function Score(s: BulkSession): real {
    if s.finalScore.Some? then s.finalScore.value else 0.0
  }

  /** The sessions with key `k`, in input order. */
  function Filter(ss: seq<BulkSession>, k: string): (r: seq<BulkSession>)
    ensures |r| <= |ss|
    ensures forall i :: 0 <= i < |r| ==> Key(r[i]) == k
  {
    if |ss| == 0 then []
    else
      var p := Filter(ss[..|ss| - 1], k);
      if Key(ss[|ss| - 1]) == k then p + [ss[|ss| - 1]] else p
  }

  /** The distinct keys, in order of first appearance. */
  function Keys(ss: seq<BulkSession>): (ks: seq<string>)
    ensures |ks| <= |ss|
  {
    if |ss| == 0 then []
    else
      var p := Keys(ss[..|ss| - 1]);
      if Key(ss[|ss| - 1]) in p then p else p + [Key(ss[|ss| - 1])]
  }

  predicate Distinct(ks: seq<string>) {
    forall i, j :: 0 <= i < j < |ks| ==> ks[i] != ks[j]
  }

  lemma {:induction false} KeysDistinct(ss: seq<BulkSession>)
    ensures Distinct(Keys(ss))
  {
    if |ss| > 0 {
      KeysDistinct(ss[..|ss| - 1]);
    }
  }

  /** A key is listed exactly when some session has it, and then its sessions
      are not empty. */
  lemma {:induction false} KeysFilter(ss: seq<BulkSession>, k: string)
    ensures k in Keys(ss) <==> |Filter(ss, k)| > 0
    ensures k in Keys(ss) <==> exists i :: 0 <= i < |ss| && Key(ss[i]) == k
  {
    if |ss| > 0 {
      var p := ss[..|ss| - 1];
      KeysFilter(p, k);
      if exists i :: 0 <= i < |p| && Key(p[i]) == k {
        var i :| 0 <= i < |p| && Key(p[i]) == k;
        assert ss[i] == p[i];
      }
      if exists i :: 0 <= i < |ss| && Key(ss[i]) == k {
        var i :| 0 <= i < |ss| && Key(ss[i]) == k;
        if i < |p| {
          assert p[i] == ss[i];
        }
      }
    }
  }

  /** Keys are only ever appended: the keys of the first `n` sessions are a
      prefix of the keys of all, so the groups come in order of first
      appearance. */
  lemma {:induction false} KeysGrow(ss: seq<BulkSession>, n: nat)
    requires n <= |ss|
    ensures |Keys(ss[..n])| <= |Keys(ss)| && Keys(ss)[..|Keys(ss[..n])|] == Keys(ss[..n])
  {
    if n < |ss| {
      var p := ss[..|ss| - 1];
      assert p[..n] == ss[..n];
      KeysGrow(p, n);
    } else {
      assert ss[..n] == ss;
    }
  }

  // ---------------------------------------------------------------------------
  // Grouping
  // ---------------------------------------------------------------------------

  /** One teacher: key, name and email (from the first session) and sessions. */
  datatype Group = Group(key: string, name: string, email: string, sessions: seq<BulkSession>)

  function NameOf(s: BulkSession): string {
    OrElse(s.userName, "Unknown")
  }

  function EmailOf(s: BulkSession): string {
    OrElse(s.userEmail, "N/A")
  }

  /** The index of the group with key `k`, if there is one. */
  function FindGroup(gs: seq<Group>, k: string): (r: Option<nat>)
    ensures r.Some? ==> r.value < |gs| && gs[r.value].key == k
    ensures r.None? ==> forall i :: 0 <= i < |gs| ==> gs[i].key != k
  {
    if |gs| == 0 then None
    else if gs[|gs| - 1].key == k then Some(|gs| - 1)
    else FindGroup(gs[..|gs| - 1], k)
  }

  /** The body of the `forEach`: the session joins its teacher's group, which
      is created (with this session's name and email) on first sight. */
  function AddSession(gs: seq<Group>, s: BulkSession): seq<Group> {
    match FindGroup(gs, Key(s))
    case Some(i) => gs[i := gs[i].(sessions := gs[i].sessions + [s])]
    case None => gs + [Group(Key(s), NameOf(s), EmailOf(s), [s])]
  }

  /** `grouped`, listed as `Object.values` lists it (insertion order). */
  function Grouped(ss: seq<BulkSession>): (gs: seq<Group>)
    ensures |gs| <= |ss|
  {
    if |ss| == 0 then [] else AddSession(Grouped(ss[..|ss| - 1]), ss[|ss| - 1])
  }

  /** The group of key `k`, defined directly: all sessions with that key, with
      name and email taken from the first of them. */
  function GroupOf(ss: seq<BulkSession>, k: string): Group {
    var f := Filter(ss, k);
    if |f| == 0 then Group(k, "Unknown", "N/A", [])
    else Group(k, NameOf(f[0]), EmailOf(f[0]), f)
  }

  /** The groups defined directly: one per distinct key, in order of first
      appearance. */
  function Reference(ss: seq<BulkSession>): (gs: seq<Group>)
    ensures |gs| == |Keys(ss)|
  {
    seq(|Keys(ss)|, i requires 0 <= i < |Keys(ss)| => GroupOf(ss, Keys(ss)[i]))
  }

  lemma FilterLast(ss: seq<BulkSession>, k: string)
    requires |ss| > 0
    ensures Filter(ss, k) == Filter(ss[..|ss| - 1], k) + (if Key(ss[|ss| - 1]) == k then [ss[|ss| - 1]] else [])
  {
  }

  /** The grouping loop builds exactly the directly defined groups. */
  lemma {:induction false} GroupedIsReference(ss: seq<BulkSession>)
    ensures Grouped(ss) == Reference(ss)
  {
    if |ss| > 0 {
      GroupedIsReference(ss[..|ss| - 1]);
      AddSessionReference(ss);
    }
  }

  /** One step of the loop: adding the last session to the groups of the
      others gives the groups of all. */
  lemma AddSessionReference(ss: seq<BulkSession>)
    requires |ss| > 0
    ensures AddSession(Reference(ss[..|ss| - 1]), ss[|ss| - 1]) == Reference(ss)
  {
    if Key(ss[|ss| - 1]) in Keys(ss[..|ss| - 1]) {
      AddToKnownGroup(ss);
    } else {
      AddNewGroup(ss);
    }
  }

  /** The key of group j of the direct definition is key j. */
  lemma ReferenceKeys(ss: seq<BulkSession>)
    ensures forall j :: 0 <= j < |Reference(ss)| ==> Reference(ss)[j].key == Keys(ss)[j]
  {
  }

  /** Keys are distinct, so the group of key i is found at index i. */
  lemma FindKnown(ss: seq<BulkSession>, i: nat)
    requires i < |Keys(ss)|
    ensures FindGroup(Reference(ss), Keys(ss)[i]) == Some(i)
  {
    var gs, ks := Reference(ss), Keys(ss);
    ReferenceKeys(ss);
    assert gs[i].key == ks[i];
    var x := FindGroup(gs, ks[i]).value;
    assert ks[x] == ks[i];
    KeysDistinct(ss);
  }

  /** A session whose teacher already has a group joins that group. */
  lemma AddToKnownGroup(ss: seq<BulkSession>)
    requires |ss| > 0 && Key(ss[|ss| - 1]) in Keys(ss[..|ss| - 1])
    ensures AddSession(Reference(ss[..|ss| - 1]), ss[|ss| - 1]) == Reference(ss)
  {
    var p := ss[..|ss| - 1];
    var s := ss[|ss| - 1];
    var k := Key(s);
    var ks := Keys(p);
    var gp := Reference(p);
    var i :| 0 <= i < |ks| && ks[i] == k;
    FindKnown(p, i);
    var r := gp[i := gp[i].(sessions := gp[i].sessions + [s])];
    assert Keys(ss) == ks;
    forall j | 0 <= j < |ks|
      ensures r[j] == GroupOf(ss, ks[j])
    {
      KeysDistinct(p);
      if j == i {
        JoinedGroup(ss, k);
      } else {
        OtherGroup(ss, ks[j]);
      }
    }
  }

  /** The last session's group gains it at the end. */
  lemma JoinedGroup(ss: seq<BulkSession>, k: string)
    requires |ss| > 0 && k == Key(ss[|ss| - 1]) && k in Keys(ss[..|ss| - 1])
    ensures GroupOf(ss, k) == GroupOf(ss[..|ss| - 1], k).(sessions := GroupOf(ss[..|ss| - 1], k).sessions + [ss[|ss| - 1]])
  {
    var p := ss[..|ss| - 1];
    FilterLast(ss, k);
    KeysFilter(p, k);
    assert (Filter(p, k) + [ss[|ss| - 1]])[0] == Filter(p, k)[0];
  }

  /** The other groups do not change. */
  lemma OtherGroup(ss: seq<BulkSession>, k: string)
    requires |ss| > 0 && k != Key(ss[|ss| - 1])
    ensures GroupOf(ss, k) == GroupOf(ss[..|ss| - 1], k)
  {
    FilterLast(ss, k);
  }

  /** A session of a new teacher opens a group at the end. */
  lemma AddNewGroup(ss: seq<BulkSession>)
    requires |ss| > 0 && Key(ss[|ss| - 1]) !in Keys(ss[..|ss| - 1])
    ensures AddSession(Reference(ss[..|ss| - 1]), ss[|ss| - 1]) == Reference(ss)
  {
    var p := ss[..|ss| - 1];
    var s := ss[|ss| - 1];
    var k := Key(s);
    var ks := Keys(p);
    var gp := Reference(p);
    assert FindGroup(gp, k).None? by {
      ReferenceKeys(p);
    }
    var r := gp + [Group(k, NameOf(s), EmailOf(s), [s])];
    assert Keys(ss) == ks + [k];
    forall j | 0 <= j < |ks| + 1
      ensures r[j] == GroupOf(ss, (ks + [k])[j])
    {
      FilterLast(ss, (ks + [k])[j]);
      if j == |ks| {
        KeysFilter(p, k);
      }
    }
  }

  // ---------------------------------------------------------------------------
  // Every session in exactly one group
  // ---------------------------------------------------------------------------

  function GroupSizes(ss: seq<BulkSession>, ks: seq<string>): nat {
    if |ks| == 0 then 0 else |Filter(ss, ks[0])| + GroupSizes(ss, ks[1..])
  }

  lemma {:induction false} GroupSizesStep(p: seq<BulkSession>, s: BulkSession, ks: seq<string>)
    requires Distinct(ks)
    ensures GroupSizes(p + [s], ks) == GroupSizes(p, ks) + (if Key(s) in ks then 1 else 0)
  {
    if |ks| > 0 {
      var ss := p + [s];
      assert ss[..|ss| - 1] == p;
      FilterLast(ss, ks[0]);
      GroupSizesStep(p, s, ks[1..]);
      assert Key(s) in ks <==> Key(s) == ks[0] || Key(s) in ks[1..] by {
        assert ks == [ks[0]] + ks[1..];
      }
    }
  }

  /** The group sizes add up to the number of sessions: every session lands in
      exactly one group. */
  lemma {:induction false} GroupSizesTotal(ss: seq<BulkSession>)
    ensures GroupSizes(ss, Keys(ss)) == |ss|
  {
    if |ss| > 0 {
      var p := ss[..|ss| - 1];
      var s := ss[|ss| - 1];
      assert ss == p + [s];
      GroupSizesTotal(p);
      KeysDistinct(p);
      GroupSizesStep(p, s, Keys(p));
      if Key(s) !in Keys(p) {
        KeysFilter(p, Key(s));
        GroupSizesAppend(ss, Keys(p), Key(s));
        FilterLast(ss, Key(s));
      }
    }
  }

  lemma {:induction false} GroupSizesAppend(ss: seq<BulkSession>, ks: seq<string>, k: string)
    ensures GroupSizes(ss, ks + [k]) == GroupSizes(ss, ks) + |Filter(ss, k)|
  {
    if |ks| > 0 {
      assert (ks + [k])[1..] == ks[1..] + [k];
      GroupSizesAppend(ss, ks[1..], k);
    } else {
      assert (ks + [k])[1..] == [];
    }
  }

  // ---------------------------------------------------------------------------
  // Rankings
  // ---------------------------------------------------------------------------

  /** `Number(x.toFixed(2))`: the nearest multiple of 0.01, halves rounded away
      from zero. */
  function Fixed2(x: real): (r: real)
    ensures -0.005 <= r - x <= 0.005
  {
    if x < 0.0 then -HalfUp2(-x) else HalfUp2(x)
  }

  function HalfUp2(x: real): (r: real)
    ensures -0.005 <= r - x <= 0.005
  {
    ((x * 100.0 + 0.5).Floor as real) / 100.0
  }

  function SumScores(ss: seq<BulkSession>): real {
    if |ss| == 0 then 0.0 else SumScores(ss[..|ss| - 1]) + Score(ss[|ss| - 1])
  }

  datatype Ranking = Ranking(name: string, email: string, avgScore: real, sessions: nat)

  /** One `rankings.push`: the rounded mean score of the teacher's sessions,
      a missing score counting as 0. */
  function RankingOf(g: Group): (r: Ranking)
    ensures r.sessions == |g.sessions| && r.name == g.name && r.email == g.email
    ensures |g.sessions| > 0 ==>
              -0.005 <= r.avgScore - SumScores(g.sessions) / (|g.sessions| as real) <= 0.005
  {
    var n := |g.sessions|;
    var avg := if n > 0 then Fixed2(SumScores(g.sessions) / (n as real)) else 0.0;
    Ranking(g.name, g.email, avg, n)
  }

  function Rankings(ss: seq<BulkSession>): (rs: seq<Ranking>)
    ensures |rs| == |Grouped(ss)|
  {
    var gs := Grouped(ss);
    seq(|gs|, i requires 0 <= i < |gs| => RankingOf(gs[i]))
  }

  function SessionTotal(rs: seq<Ranking>): nat {
    if |rs| == 0 then 0 else rs[0].sessions + SessionTotal(rs[1..])
  }

  /** There is one entry per teacher, every teacher has at least one session
      (so the "0.00" fallback is never used), and the session counts add up to
      the number of sessions. */
  lemma RankingsCover(ss: seq<BulkSession>)
    ensures |Rankings(ss)| == |Keys(ss)|
    ensures forall i :: 0 <= i < |Rankings(ss)| ==> Rankings(ss)[i].sessions >= 1
    ensures SessionTotal(Rankings(ss)) == |ss|
  {
    GroupedIsReference(ss);
    var ks := Keys(ss);
    var rs := Rankings(ss);
    forall i | 0 <= i < |rs|
      ensures rs[i].sessions == |Filter(ss, ks[i])| >= 1
    {
      KeysFilter(ss, ks[i]);
    }
    SessionTotalSizes(ss, ks, rs);
    GroupSizesTotal(ss);
  }

  lemma {:induction false} SessionTotalSizes(ss: seq<BulkSession>, ks: seq<string>, rs: seq<Ranking>)
    requires |rs| == |ks|
    requires forall i :: 0 <= i < |rs| ==> rs[i].sessions == |Filter(ss, ks[i])|
    ensures SessionTotal(rs) == GroupSizes(ss, ks)
  {
    if |rs| > 0 {
      SessionTotalSizes(ss, ks[1..], rs[1..]);
    }
  }

  // ---------------------------------------------------------------------------
  // Sorting
  // ---------------------------------------------------------------------------

  predicate NonIncreasing(rs: seq<Ranking>) {
    forall i, j :: 0 <= i < j < |rs| ==> rs[i].avgScore >= rs[j].avgScore
  }

  /** Inserts `x` before the first entry whose average is not above it. */
  function Insert(x: Ranking, rs: seq<Ranking>): (r: seq<Ranking>)
    requires NonIncreasing(rs)
    ensures NonIncreasing(r)
    ensures multiset(r) == multiset(rs) + multiset{x}
    ensures r[0] == x || (|rs| > 0 && r[0] == rs[0])
  {
    if |rs| == 0 then [x]
    else if x.avgScore >= rs[0].avgScore then [x] + rs
    else
      var t := Insert(x, rs[1..]);
      assert rs == [rs[0]] + rs[1..];
      ConsSorted(rs[0], t);
      [rs[0]] + t
  }

  /** An entry at least as high as the head of a sorted list keeps it sorted. */
  lemma ConsSorted(a: Ranking, t: seq<Ranking>)
    requires NonIncreasing(t) && (|t| == 0 || a.avgScore >= t[0].avgScore)
    ensures NonIncreasing([a] + t)
  {
    var r := [a] + t;
    forall i, j | 0 <= i < j < |r|
      ensures r[i].avgScore >= r[j].avgScore
    {
      if i > 0 {
        assert r[i] == t[i - 1] && r[j] == t[j - 1];
      } else {
        assert r[j] == t[j - 1];
      }
    }
  }

  /** `rankings.sort((a, b) => b.avgScore - a.avgScore)`: highest average
      first. */
  function SortRankings(rs: seq<Ranking>): (r: seq<Ranking>)
    ensures NonIncreasing(r)
    ensures multiset(r) == multiset(rs)
  {
    if |rs| == 0 then []
    else
      assert rs == [rs[0]] + rs[1..];
      Insert(rs[0], SortRankings(rs[1..]))
  }

  // ---------------------------------------------------------------------------
  // Colours
  // ---------------------------------------------------------------------------

  const Danger := "#C62828"
  const Success := "#2E7D32"

  /** The colour of a score circle or bar. */
  function ScoreColour(score: real): (c: string)
    ensures c == Danger <==> score < 2.5
    ensures c == Success <==> score >= 2.5
  {
    if score < 2.5 then Danger else Success
  }
}
