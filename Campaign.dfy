/** The experience table of a campaign (`CampaignLevels` in
    src/model/campaign.rs): an ordered map from level to the experience
    needed to reach it. Its rule, which `add_level` enforces, is that the
    experience needed strictly increases with the level. */
module Campaign {
  import opened Wrappers
  import opened Int64

  const U64_MAX: int := 0xFFFF_FFFF_FFFF_FFFF

  newtype u64 = x: int | 0 <= x <= U64_MAX

  /** Experience strictly increases with the level. */
  predicate Increasing(m: map<u64, u64>) {
    forall a, b | a in m && b in m && a < b :: m[a] < m[b]
  }

  /** The check of `add_level`: every level below `level` needs less than
      `xp`, every level above needs more; an entry at `level` is ignored. */
  predicate FitsAt(m: map<u64, u64>, level: u64, xp: u64) {
    forall k | k in m :: (k < level ==> m[k] < xp) && (k > level ==> xp < m[k])
  }

  /** `level - 1` and `level + 1` on `u64`, wrapping as in a release build. */
  function Below(level: u64): u64 {
    if level == 0 then U64_MAX as u64 else level - 1
  }

  function Above(level: u64): u64 {
    if level as int == U64_MAX then 0 else level + 1
  }

  function Dec(n: u64): string {
    NatToString(n as nat)
  }

  /** The message of a rejected `add_level`: one sentence per neighbouring
      level (`level - 1`, `level + 1`) present in the table, joined by a
      line break; it is empty when neither neighbour is present. */
  function RejectionMessage(m: map<u64, u64>, level: u64, xp: u64): (r: string)
    ensures r == "" <==> Below(level) !in m && Above(level) !in m
  {
    var lo := Below(level);
    var hi := Above(level);
    var left :=
      if lo in m then
        "XP for level " + Dec(level) + " (" + Dec(xp) + ") must be greater than the XP required for the previous level "
        + Dec(lo) + " (" + Dec(m[lo]) + ")."
      else "";
    var sep := if lo in m && hi in m then "\n" else "";
    var right :=
      if hi in m then
        "XP for level " + Dec(level) + " (" + Dec(xp) + ") must be less than the XP required for the next level "
        + Dec(hi) + " (" + Dec(m[hi]) + ")."
      else "";
    left + sep + right
  }

  function MissingLevelMessage(level: u64): string {
    "Level " + Dec(level) + " was not in the table!"
  }

  /** The 3.5e thresholds of levels 1 to 20. */
  function StandardTable(): map<u64, u64> {
    map[1 := 0, 2 := 1000, 3 := 3000, 4 := 6000, 5 := 10000, 6 := 15000, 7 := 21000,
        8 := 28000, 9 := 36000, 10 := 45000, 11 := 55000, 12 := 66000, 13 := 78000,
        14 := 91000, 15 := 105000, 16 := 120000, 17 := 136000, 18 := 153000,
        19 := 171000, 20 := 190000]
  }

  /** The level reached at `xp` by the ascending walk of `level_from_xp`:
      `k` is a level whose threshold, and that of every level below it, is
      at most `xp`. */
  predicate Reached(m: map<u64, u64>, xp: u64, k: u64) {
    k in m && forall j | j in m && j <= k :: m[j] <= xp
  }

  /** `l` is what `level_from_xp` answers: the greatest reached level, or 1
      when the lowest level is already out of reach. */
  predicate IsLevelFor(m: map<u64, u64>, xp: u64, l: u64) {
    (Reached(m, xp, l) && forall k | Reached(m, xp, k) :: k <= l)
    || (l == 1 && forall k | k in m :: !Reached(m, xp, k))
  }

  class CampaignLevels {
    var inner: map<u64, u64>

    /** The table keeps its rule. */
    predicate Valid()
      reads this
    {
      Increasing(inner)
    }

    /** `new`: the standard table, built by twenty inserts. */
    constructor New()
      ensures inner == StandardTable() && Valid()
    {
      var table: map<u64, u64> := map[];
      table := table[1 := 0];
      table := table[2 := 1000];
      table := table[3 := 3000];
      table := table[4 := 6000];
      table := table[5 := 10000];
      table := table[6 := 15000];
      table := table[7 := 21000];
      table := table[8 := 28000];
      table := table[9 := 36000];
      table := table[10 := 45000];
      table := table[11 := 55000];
      table := table[12 := 66000];
      table := table[13 := 78000];
      table := table[14 := 91000];
      table := table[15 := 105000];
      table := table[16 := 120000];
      table := table[17 := 136000];
      table := table[18 := 153000];
      table := table[19 := 171000];
      table := table[20 := 190000];
      inner := table;
      StandardTableIncreasing();
    }

    constructor Empty()
      ensures inner == map[] && Valid()
    {
      inner := map[];
    }

    /** `add_level`: accept exactly when the experience fits between the
        neighbouring levels, and then set the entry; otherwise leave the
        table as it was. */
    method AddLevel(level: u64, xp: u64) returns (r: Result<(), string>)
      modifies this
      ensures r.Success? <==> FitsAt(old(inner), level, xp)
      ensures r.Success? ==> inner == old(inner)[level := xp]
      ensures r.Failure? ==> inner == old(inner) && r.error == RejectionMessage(old(inner), level, xp)
      ensures old(Valid()) ==> Valid()
    {
      if Valid() {
        UpdatesKeepIncreasing(inner, level, xp);
      }
      var isValid := FitsAt(inner, level, xp);
      if !isValid {
        return Failure(RejectionMessage(inner, level, xp));
      }
      inner := inner[level := xp];
      return Success(());
    }

    /** `remove_level`: take out exactly the entry for `level`. */
    method RemoveLevel(level: u64) returns (r: Result<(u64, u64), string>)
      modifies this
      ensures level in old(inner) ==> r == Success((level, old(inner)[level])) && inner == old(inner) - {level}
      ensures level !in old(inner) ==> r == Failure(MissingLevelMessage(level)) && inner == old(inner)
      ensures old(Valid()) ==> Valid()
    {
      if Valid() {
        UpdatesKeepIncreasing(inner, level, 0);
      }
      if level in inner {
        var v := inner[level];
        inner := inner - {level};
        return Success((level, v));
      }
      return Failure(MissingLevelMessage(level));
    }

    /** `xp_from_level`: the threshold of `level`, if it is in the table. */
    function XpFromLevel(level: u64): (r: Option<u64>)
      reads this
      ensures r.Some? <==> level in inner
      ensures r.Some? ==> r.value == inner[level]
    {
      if level in inner then Some(inner[level]) else None
    }

    /** `level_from_xp`: walk the levels in ascending order, remembering the
        last one whose threshold is at most `xp` and stopping at the first
        whose threshold is above it. */
    method LevelFromXp(xp: u64) returns (r: Option<u64>)
      ensures r.None? <==> inner == map[]
      ensures r.Some? ==> IsLevelFor(inner, xp, r.value)
      ensures r.Some? && Valid() ==> GreatestWithin(inner, xp, r.value)
    {
      if inner == map[] {
        return None;
      }
      var level: u64 := 1;
      var remaining := inner.Keys;
      while remaining != {}
        invariant WalkInv(inner, xp, remaining, level)
        decreases remaining
      {
        ghost var least := Least(remaining);
        var k :| k in remaining && forall j | j in remaining :: k <= j;
        if inner[k] <= xp {
          WalkStep(inner, xp, remaining, level, k);
          level := k;
        } else {
          WalkStopped(inner, xp, remaining, level, k);
          break;
        }
        remaining := remaining - {k};
      }
      if remaining == {} {
        assert inner.Keys - remaining == inner.Keys;
        WalkFinished(inner, xp, level);
      }
      WalkAnswer(inner, xp, level);
      return Some(level);
    }
  }

  /** The least element of a non-empty set of levels. */
  ghost function Least(s: set<u64>): (k: u64)
    requires s != {}
    ensures k in s && forall j | j in s :: k <= j
    decreases |s|
  {
    var x :| x in s;
    if s == {x} then x
    else
      var rest := s - {x};
      var k := Least(rest);
      LeastOfTwo(s, x, rest, k);
      if x < k then x else k
  }

  lemma LeastOfTwo(s: set<u64>, x: u64, rest: set<u64>, k: u64)
    requires x in s && rest == s - {x} && k in rest && forall j | j in rest :: k <= j
    ensures forall j | j in s :: (if x < k then x else k) <= j
  {
    forall j | j in s
      ensures (if x < k then x else k) <= j
    {
      if j != x {
        assert j in rest;
      }
    }
  }

  /** The walk so far: the levels visited are all below the ones left, all
      have thresholds at most `xp`, and `level` is the greatest of them (1
      before the first). */
  predicate WalkInv(m: map<u64, u64>, xp: u64, remaining: set<u64>, level: u64) {
    && remaining <= m.Keys
    && (forall a, b | a in m.Keys - remaining && b in remaining :: a < b)
    && (forall a | a in m.Keys - remaining :: m[a] <= xp)
    && ((m.Keys - remaining == {} && level == 1)
        || (level in m.Keys - remaining && forall a | a in m.Keys - remaining :: a <= level))
  }

  lemma WalkStep(m: map<u64, u64>, xp: u64, remaining: set<u64>, level: u64, k: u64)
    requires WalkInv(m, xp, remaining, level)
    requires k in remaining && m[k] <= xp && forall j | j in remaining :: k <= j
    ensures WalkInv(m, xp, remaining - {k}, k)
  {
    var rest := remaining - {k};
    assert m.Keys - rest == (m.Keys - remaining) + {k};
    forall a, b | a in m.Keys - rest && b in rest
      ensures a < b
    {
      if a == k {
        assert b in remaining && b != k;
      }
    }
  }

  lemma WalkStopped(m: map<u64, u64>, xp: u64, remaining: set<u64>, level: u64, k: u64)
    requires WalkInv(m, xp, remaining, level)
    requires k in remaining && xp < m[k] && forall j | j in remaining :: k <= j
    ensures IsLevelFor(m, xp, level)
  {
    forall j | Reached(m, xp, j)
      ensures j in m.Keys - remaining
    {
    }
    if level in m.Keys - remaining {
      assert Reached(m, xp, level);
    }
  }

  /** The walk's answer, on an increasing table, is the greatest level whose
      threshold is at most `xp`. */
  lemma WalkAnswer(m: map<u64, u64>, xp: u64, level: u64)
    requires IsLevelFor(m, xp, level)
    ensures Increasing(m) ==> GreatestWithin(m, xp, level)
  {
    if Increasing(m) {
      LevelForIncreasing(m, xp, level);
    }
  }

  lemma WalkFinished(m: map<u64, u64>, xp: u64, level: u64)
    requires m != map[]
    requires forall a | a in m :: m[a] <= xp
    requires level in m && forall a | a in m :: a <= level
    ensures IsLevelFor(m, xp, level)
  {
    assert Reached(m, xp, level);
  }

  /** The check of `add_level` accepts exactly the entries that keep an
      increasing table increasing. */
  lemma FitsAtIffStaysIncreasing(m: map<u64, u64>, level: u64, xp: u64)
    requires Increasing(m)
    ensures FitsAt(m, level, xp) <==> Increasing(m[level := xp])
  {
    var m' := m[level := xp];
    if FitsAt(m, level, xp) {
      forall a, b | a in m' && b in m' && a < b
        ensures m'[a] < m'[b]
      {
        if a != level && b != level {
          assert m'[a] == m[a] && m'[b] == m[b];
        }
      }
    }
    if Increasing(m') {
      forall k | k in m
        ensures (k < level ==> m[k] < xp) && (k > level ==> xp < m[k])
      {
        if k != level {
          assert k in m' && m'[k] == m[k] && m'[level] == xp;
        }
      }
    }
  }

  /** Neither outcome of `add_level` breaks the rule, and neither does
      `remove_level`. */
  lemma UpdatesKeepIncreasing(m: map<u64, u64>, level: u64, xp: u64)
    requires Increasing(m)
    ensures Increasing(if FitsAt(m, level, xp) then m[level := xp] else m)
    ensures Increasing(m - {level})
  {
    FitsAtIffStaysIncreasing(m, level, xp);
  }

  /** The greatest level whose threshold is at most `xp`, or 1 if every
      threshold is above `xp`. */
  predicate GreatestWithin(m: map<u64, u64>, xp: u64, l: u64) {
    (l in m && m[l] <= xp && forall k | k in m && m[k] <= xp :: k <= l)
    || (l == 1 && forall k | k in m :: xp < m[k])
  }

  lemma ReachedIffWithin(m: map<u64, u64>, xp: u64, k: u64)
    requires Increasing(m)
    ensures Reached(m, xp, k) <==> k in m && m[k] <= xp
  {
    if k in m && m[k] <= xp {
      forall j | j in m && j <= k
        ensures m[j] <= xp
      {
        if j < k {
          assert m[j] < m[k];
        }
      }
    }
  }

  /** On an increasing table `level_from_xp` answers the greatest level whose
      threshold is at most `xp`, or 1 if there is none. */
  lemma LevelForIncreasing(m: map<u64, u64>, xp: u64, l: u64)
    requires Increasing(m)
    ensures IsLevelFor(m, xp, l) <==> GreatestWithin(m, xp, l)
  {
    forall k | true
      ensures Reached(m, xp, k) <==> k in m && m[k] <= xp
    {
      ReachedIffWithin(m, xp, k);
    }
  }

  /** `level_from_xp` has exactly one answer. */
  lemma LevelForUnique(m: map<u64, u64>, xp: u64, a: u64, b: u64)
    requires IsLevelFor(m, xp, a) && IsLevelFor(m, xp, b)
    ensures a == b
  {
    if Reached(m, xp, a) && Reached(m, xp, b) {
      assert a <= b && b <= a;
    }
  }

  /** On an increasing table, the threshold of a level leads back to it. */
  lemma ThresholdLeadsBack(m: map<u64, u64>, l: u64)
    requires Increasing(m) && l in m
    ensures IsLevelFor(m, m[l], l)
  {
    LevelForIncreasing(m, m[l], l);
  }

  lemma StandardTableIncreasing()
    ensures Increasing(StandardTable())
  {
  }

  /** The round trip `level_from_xp(xp_from_level(l)) == l` for the levels of
      the standard table. */
  lemma StandardRoundTrip(l: u64)
    requires 1 <= l <= 20
    ensures l in StandardTable() && IsLevelFor(StandardTable(), StandardTable()[l], l)
  {
    StandardTableIncreasing();
    ThresholdLeadsBack(StandardTable(), l);
  }

  /** A rejected insertion whose conflicting entries are not the adjacent
      levels gets an empty message. */
  lemma SilentRejection()
    ensures !FitsAt(map[1 := 0, 3 := 100], 5, 50)
    ensures RejectionMessage(map[1 := 0, 3 := 100], 5, 50) == ""
  {
    var m: map<u64, u64> := map[1 := 0, 3 := 100];
    assert 3 in m && m[3] == 100;
  }

  /** The checks `add_level` makes in `test_campaign_levels_edit_level`. */
  lemma EditLevelChecks()
    ensures FitsAt(map[], 1, 0) && FitsAt(map[1 := 0], 1, 50)
    ensures !FitsAt(map[1 := 50], 2, 0) && FitsAt(map[1 := 50], 2, 100)
    ensures !FitsAt(map[1 := 50, 2 := 100], 1, 150) && FitsAt(map[1 := 50, 2 := 100], 1, 25)
  {
    var one: map<u64, u64> := map[1 := 50];
    assert 1 in one;
    var two: map<u64, u64> := map[1 := 50, 2 := 100];
    assert 2 in two;
  }

  /** The edits of the unit test `test_campaign_levels_edit_level`: which
      of them are accepted, and the table they leave. */
  method EditLevels() returns (accepted: seq<bool>, table: map<u64, u64>)
    ensures accepted == [true, true, false, true, false, true, true]
    ensures table == map[1 := 25]
  {
    var levels := new CampaignLevels.Empty();
    var adds := EditAdds(levels);
    var changes := EditChanges(levels);
    accepted := adds + changes;
    table := levels.inner;
  }

  /** The test's first four edits: set level 1 twice, then a level 2 below
      it (refused) and above it. */
  method EditAdds(levels: CampaignLevels) returns (accepted: seq<bool>)
    requires levels.inner == map[]
    modifies levels
    ensures accepted == [true, true, false, true]
    ensures levels.inner == map[1 := 50, 2 := 100]
  {
    EditLevelChecks();
    var r1 := levels.AddLevel(1, 0);
    assert levels.XpFromLevel(1) == Some(0);
    var r2 := levels.AddLevel(1, 50);
    assert levels.XpFromLevel(1) == Some(50);
    assert levels.inner == map[1 := 50];
    var r3 := levels.AddLevel(2, 0);
    assert levels.XpFromLevel(2) == None;
    var r4 := levels.AddLevel(2, 100);
    assert levels.XpFromLevel(2) == Some(100);
    accepted := [r1.Success?, r2.Success?, r3.Success?, r4.Success?];
  }

  /** The test's last three edits: level 1 above level 2 (refused), level 1
      lowered, and level 2 removed. */
  method EditChanges(levels: CampaignLevels) returns (accepted: seq<bool>)
    requires levels.inner == map[1 := 50, 2 := 100]
    modifies levels
    ensures accepted == [false, true, true]
    ensures levels.inner == map[1 := 25]
  {
    EditLevelChecks();
    var r5 := levels.AddLevel(1, 150);
    assert levels.XpFromLevel(1) == Some(50);
    var r6 := levels.AddLevel(1, 25);
    assert levels.XpFromLevel(1) == Some(25);
    assert levels.inner == map[1 := 25, 2 := 100];
    var removed := levels.RemoveLevel(2);
    assert levels.XpFromLevel(2) == None;
    accepted := [r5.Success?, r6.Success?, removed.Success?];
  }

  /** `answers[i]` is the threshold of level `i + 1` of the standard table
      and the level that threshold converts back to, `i + 1`. */
  predicate ConvertsBack(answers: seq<(Option<u64>, Option<u64>)>) {
    |answers| <= 20 && forall i :: 0 <= i < |answers| ==>
      (i + 1) as u64 in StandardTable() && answers[i] == (Some(StandardTable()[(i + 1) as u64]), Some((i + 1) as u64))
  }

  /** The conversions of the unit test `test_xp_conversion`: for each level
      1 to 20 of the standard table, its threshold, and the level that
      threshold converts back to. */
  method XpConversion() returns (answers: seq<(Option<u64>, Option<u64>)>)
    ensures |answers| == 20 && ConvertsBack(answers)
  {
    var levels := new CampaignLevels.New();
    answers := [];
    for l: u64 := 1 to 21
      invariant levels.inner == StandardTable()
      invariant |answers| == l as int - 1 && ConvertsBack(answers)
    {
      var answer := ConvertLevel(levels, l);
      answers := answers + [answer];
    }
  }

  /** One level of `test_xp_conversion`: its threshold, and the level that
      threshold converts back to. */
  method ConvertLevel(levels: CampaignLevels, l: u64) returns (answer: (Option<u64>, Option<u64>))
    requires levels.inner == StandardTable() && 1 <= l <= 20
    ensures l in StandardTable() && answer == (Some(StandardTable()[l]), Some(l))
  {
    StandardRoundTrip(l);
    var xp := levels.XpFromLevel(l);
    var back := levels.LevelFromXp(xp.value);
    LevelForUnique(levels.inner, xp.value, back.value, l);
    answer := (xp, back);
  }
}
