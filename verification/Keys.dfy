/** The idempotency keys that pkg/scheduler/scheduler.go gives to instances: when they tell tasks of runs apart. */
module Keys {
  import opened Ordering
  import opened Store
  import opened Views

  function Key(dagID: string, runID: RunID, taskID: Id): string {
    dagID + "-" + runID + "-" + taskID
  }

  /** Every instance has the key of its DAG, run and task. */
  ghost predicate Keyed(m: Instances) {
    forall k :: k in m ==> m[k].idempotencyKey == Key(m[k].dagID, m[k].runID, m[k].taskID)
  }

  // ---------------------------------------------------------------- run IDs of one length

  /** `long` is `short` and a dash; if it goes on for more than `n` letters then there is another dash after these. */
  predicate Clash(n: nat, short: string, long: string) {
    && |short| < |long| && long[..|short|] == short && long[|short|] == '-'
    && (|short| + 1 + n < |long| ==> long[|short| + 1 + n] == '-')
  }

  lemma EqualKeys(d1: string, r1: RunID, t1: Id, d2: string, r2: RunID, t2: Id)
    requires |r1| == |r2| && |d1| <= |d2| && Key(d1, r1, t1) == Key(d2, r2, t2)
    ensures (d1 == d2 && r1 == r2 && t1 == t2) || Clash(|r1|, d1, d2)
  {
    var k1, k2 := Key(d1, r1, t1), Key(d2, r2, t2);
    var n, a, b := |r1|, |d1|, |d2|;
    assert k1[..a] == d1 && k2[..b] == d2;
    if a == b {
      assert k1[a + 1..a + 1 + n] == r1 && k2[a + 1..a + 1 + n] == r2;
      assert k1[a + 2 + n..] == t1 && k2[a + 2 + n..] == t2;
    } else {
      assert d2[..a] == k2[..a];
      assert d2[a] == k2[a] == k1[a] == '-';
      if a + 1 + n < b {
        assert d2[a + 1 + n] == k2[a + 1 + n] == k1[a + 1 + n] == '-';
      }
    }
  }

  /** Wherever DAG IDs clash, two tasks of two runs can have one key. */
  lemma ClashingKeys(n: nat, d1: string, d2: string) returns (r1: RunID, t1: Id, r2: RunID, t2: Id)
    requires Clash(n, d1, d2)
    ensures |r1| == |r2| == n && t1 != "" && t2 != "" && Key(d1, r1, t1) == Key(d2, r2, t2)
  {
    var x := d2[|d1| + 1..];
    r2, t2 := seq(n, _ => '-'), "t";
    var rest := x + "-" + r2 + "-" + t2;
    r1, t1 := rest[..n], rest[n + 1..];
    assert rest[n] == '-';
    assert rest == r1 + "-" + t1;
    assert d2 == d1 + "-" + x;
    assert Key(d1, r1, t1) == d1 + "-" + rest == Key(d2, r2, t2);
  }

  /** Keys of these two DAGs are equal for equal runs and tasks only. */
  ghost predicate ToldApart(n: nat, d1: string, d2: string) {
    forall r1, t1, r2, t2 {:trigger Key(d1, r1, t1), Key(d2, r2, t2)} ::
      |r1| == |r2| == n && t1 != "" && t2 != "" && Key(d1, r1, t1) == Key(d2, r2, t2) ==>
        d1 == d2 && r1 == r2 && t1 == t2
  }

  /** With run IDs of length `n`, keys tell the tasks of two DAGs apart exactly when the DAG IDs do not clash. */
  lemma ToldApartExactly(n: nat, d1: string, d2: string)
    ensures ToldApart(n, d1, d2) <==> !Clash(n, d1, d2) && !Clash(n, d2, d1)
  {
    hide Key, Clash;
    forall r1, t1, r2, t2 | |r1| == |r2| == n && Key(d1, r1, t1) == Key(d2, r2, t2)
      ensures (d1 == d2 && r1 == r2 && t1 == t2) || Clash(n, d1, d2) || Clash(n, d2, d1)
    {
      if |d1| <= |d2| {
        EqualKeys(d1, r1, t1, d2, r2, t2);
      } else {
        EqualKeys(d2, r2, t2, d1, r1, t1);
      }
    }
    if Clash(n, d1, d2) {
      var r1, t1, r2, t2 := ClashingKeys(n, d1, d2);
      ClashingDiffer(n, d1, d2);
      assert Key(d1, r1, t1) == Key(d2, r2, t2);
    }
    if Clash(n, d2, d1) {
      var r2, t2, r1, t1 := ClashingKeys(n, d2, d1);
      ClashingDiffer(n, d2, d1);
      assert Key(d1, r1, t1) == Key(d2, r2, t2);
    }
  }

  lemma ClashingDiffer(n: nat, d1: string, d2: string)
    ensures Clash(n, d1, d2) ==> d1 != d2
  {
  }

  // ---------------------------------------------------------------- run IDs that are UUIDs

  /** The canonical text form: 36 characters, with dashes in four places and hexadecimal digits in the others. */
  predicate IsUuid(s: string) {
    |s| == 36 && forall i :: 0 <= i < 36 ==> if i in {8, 13, 18, 23} then s[i] == '-' else s[i] in "0123456789abcdef"
  }

  /** `long` is `short`, a dash and a UUID, and either ends there or goes on with a dash. */
  predicate UuidClash(short: string, long: string) {
    Clash(36, short, long) && |short| + 37 <= |long| && IsUuid(long[|short| + 1..|short| + 37])
  }

  /** `r2` agrees with what follows letter `l` of `r1`, a dash. */
  ghost predicate Overlaps(r1: string, r2: string, l: nat) {
    l < |r1| == |r2| && r1[l] == '-' && forall i, j :: l < i < |r1| && j == i - l - 1 ==> r1[i] == r2[j]
  }

  /** UUIDs do not overlap: wherever a dash of the first falls, the first dash of the second falls on a digit. */
  lemma UuidsDoNotOverlap(r1: string, r2: string, l: nat)
    requires IsUuid(r1) && IsUuid(r2)
    ensures !Overlaps(r1, r2, l)
  {
    assert l < 36 && r1[l] == '-' ==> l in {8, 13, 18, 23} && r1[l + 9] != r2[8];
  }

  /** Where the dash after `d2` falls inside `r1`, the rest of `r1` agrees with `r2`. */
  lemma EqualKeysOverlap(d1: string, r1: RunID, t1: Id, d2: string, r2: RunID, t2: Id)
    requires |r1| == |r2| && |d1| < |d2| <= |d1| + |r1| && Key(d1, r1, t1) == Key(d2, r2, t2)
    ensures Overlaps(r1, r2, |d2| - |d1| - 1)
  {
    var k, a, b, n := Key(d1, r1, t1), |d1|, |d2|, |r1|;
    KeyParts(d1, r1, t1);
    KeyParts(d2, r2, t2);
    assert r1[b - a - 1] == k[a + 1..a + 1 + n][b - a - 1] == k[b];
    forall i, j | b - a - 1 < i < n && j == i - (b - a - 1) - 1 ensures r1[i] == r2[j] {
      assert k[a + 1..a + 1 + n][i] == k[a + 1 + i] == k[b + 1..b + 1 + n][j];
    }
  }

  lemma KeyParts(d: string, r: RunID, t: Id)
    ensures var k := Key(d, r, t);
            && |k| == |d| + |r| + |t| + 2 && k[..|d|] == d && k[|d|] == '-'
            && k[|d| + 1..|d| + 1 + |r|] == r && k[|d| + 1 + |r|] == '-'
  {
  }

  /** Equal keys of different tasks mean that the longer DAG ID contains the other task's run ID. */
  lemma EqualUuidKeys(d1: string, r1: RunID, t1: Id, d2: string, r2: RunID, t2: Id)
    requires IsUuid(r1) && IsUuid(r2) && |d1| <= |d2| && Key(d1, r1, t1) == Key(d2, r2, t2)
    ensures (d1 == d2 && r1 == r2 && t1 == t2) || (UuidClash(d1, d2) && d2[|d1| + 1..|d1| + 37] == r1)
  {
    EqualKeys(d1, r1, t1, d2, r2, t2);
    if Clash(36, d1, d2) {
      RunIdEmbedded(d1, r1, t1, d2, r2, t2);
    }
  }

  lemma RunIdEmbedded(d1: string, r1: RunID, t1: Id, d2: string, r2: RunID, t2: Id)
    requires IsUuid(r1) && IsUuid(r2) && |d1| < |d2| && Key(d1, r1, t1) == Key(d2, r2, t2)
    ensures |d1| + 37 <= |d2| && d2[|d1| + 1..|d1| + 37] == r1
  {
    var k, a, b := Key(d1, r1, t1), |d1|, |d2|;
    KeyParts(d1, r1, t1);
    KeyParts(d2, r2, t2);
    assert |r1| == |r2| == 36;
    hide Key, IsUuid;
    if b <= a + 36 {
      EqualKeysOverlap(d1, r1, t1, d2, r2, t2);
      UuidsDoNotOverlap(r1, r2, b - a - 1);
      assert false;
    }
    assert k[..b][a + 1..a + 37] == k[a + 1..a + 37];
  }

  lemma ClashingUuidKeys(d1: string, d2: string, r2: RunID) returns (r1: RunID, t1: Id, t2: Id)
    requires UuidClash(d1, d2)
    ensures IsUuid(r1) && t1 != "" && t2 != "" && Key(d1, r1, t1) == Key(d2, r2, t2)
  {
    var x := d2[|d1| + 1..];
    t2 := "t";
    var rest := x + "-" + r2 + "-" + t2;
    r1, t1 := rest[..36], rest[37..];
    assert r1 == d2[|d1| + 1..|d1| + 37];
    assert rest == r1 + "-" + t1;
    assert d2 == d1 + "-" + x;
    assert Key(d1, r1, t1) == d1 + "-" + rest == Key(d2, r2, t2);
  }

  ghost predicate UuidsToldApart(d1: string, d2: string) {
    forall r1, t1, r2, t2 {:trigger Key(d1, r1, t1), Key(d2, r2, t2)} ::
      IsUuid(r1) && IsUuid(r2) && t1 != "" && t2 != "" && Key(d1, r1, t1) == Key(d2, r2, t2) ==>
        d1 == d2 && r1 == r2 && t1 == t2
  }

  /**
   For the scheduler's own run IDs, keys tell the tasks of two DAGs apart exactly unless one DAG ID is the other with a
   dash and a UUID after it.
   */
  lemma UuidsToldApartExactly(d1: string, d2: string)
    ensures UuidsToldApart(d1, d2) <==> !UuidClash(d1, d2) && !UuidClash(d2, d1)
  {
    hide Key, UuidClash, IsUuid;
    forall r1, t1, r2, t2 | IsUuid(r1) && IsUuid(r2) && Key(d1, r1, t1) == Key(d2, r2, t2)
      ensures (d1 == d2 && r1 == r2 && t1 == t2) || UuidClash(d1, d2) || UuidClash(d2, d1)
    {
      if |d1| <= |d2| {
        EqualUuidKeys(d1, r1, t1, d2, r2, t2);
      } else {
        EqualUuidKeys(d2, r2, t2, d1, r1, t1);
      }
    }
    var someID := SomeUuid();
    if UuidClash(d1, d2) {
      var r1, t1, t2 := ClashingUuidKeys(d1, d2, someID);
      UuidClashingDiffer(d1, d2);
      assert Key(d1, r1, t1) == Key(d2, someID, t2);
    }
    if UuidClash(d2, d1) {
      var r2, t2, t1 := ClashingUuidKeys(d2, d1, someID);
      UuidClashingDiffer(d2, d1);
      assert Key(d1, someID, t1) == Key(d2, r2, t2);
    }
  }

  lemma SomeUuid() returns (r: RunID)
    ensures IsUuid(r)
  {
    r := "00000000-0000-0000-0000-000000000000";
  }

  lemma UuidClashingDiffer(d1: string, d2: string)
    ensures UuidClash(d1, d2) ==> d1 != d2
  {
  }

  // ---------------------------------------------------------------- a table of instances

  /** While run IDs have one length and no two DAG IDs clash, no two instances share a key. */
  lemma KeysStayUnique(m: Instances, n: nat)
    requires OnePerTask(m) && Keyed(m) && forall k :: k in m ==> |m[k].runID| == n
    requires forall a, b :: a in m && b in m ==> !Clash(n, m[a].dagID, m[b].dagID)
    ensures KeysUnique(m)
  {
    hide Key, Clash;
    forall a, b | a in m && b in m && m[a].idempotencyKey == m[b].idempotencyKey ensures a == b {
      var x, y := m[a], m[b];
      if |x.dagID| <= |y.dagID| {
        EqualKeys(x.dagID, x.runID, x.taskID, y.dagID, y.runID, y.taskID);
      } else {
        EqualKeys(y.dagID, y.runID, y.taskID, x.dagID, x.runID, x.taskID);
      }
    }
  }

  /** With UUIDs for run IDs it takes a DAG ID that contains the ID of a run of another DAG. */
  lemma UuidKeysStayUnique(m: Instances)
    requires OnePerTask(m) && Keyed(m) && forall k :: k in m ==> IsUuid(m[k].runID)
    requires forall a, b :: a in m && b in m ==> !Embeds(m[a], m[b].dagID)
    ensures KeysUnique(m)
  {
    hide Key, Clash, IsUuid;
    forall a, b | a in m && b in m && m[a].idempotencyKey == m[b].idempotencyKey ensures a == b {
      var x, y := m[a], m[b];
      if |x.dagID| <= |y.dagID| {
        EqualUuidKeys(x.dagID, x.runID, x.taskID, y.dagID, y.runID, y.taskID);
      } else {
        EqualUuidKeys(y.dagID, y.runID, y.taskID, x.dagID, x.runID, x.taskID);
      }
    }
  }

  /** `dagID` starts with the DAG ID of `ti`, a dash and the run ID of `ti`. */
  predicate Embeds(ti: TaskInstance, dagID: string) {
    |ti.dagID| + 37 <= |dagID| && UuidClash(ti.dagID, dagID) && dagID[|ti.dagID| + 1..|ti.dagID| + 37] == ti.runID
  }
}
