/** The dead letter queue of pkg/retry/retry.go: a bounded queue that drops its oldest entry when it is full. */
module DeadLetter {
  import opened DagTypes

  datatype DLQEntry = DLQEntry(taskID: string, runID: string, error: string, attempts: int)

  datatype Departure = Popped(entry: DLQEntry) | Evicted(entry: DLQEntry) | Cleared(entry: DLQEntry)

  /** The entries that departed, in order of departure. */
  ghost function Entries(gone: seq<Departure>): (r: seq<DLQEntry>)
    ensures |r| == |gone|
  {
    seq(|gone|, i requires 0 <= i < |gone| => gone[i].entry)
  }

  lemma EntriesJoin(a: seq<Departure>, b: seq<Departure>)
    ensures Entries(a + b) == Entries(a) + Entries(b)
  {
  }

  ghost function ClearedAll(entries: seq<DLQEntry>): (r: seq<Departure>)
    ensures Entries(r) == entries && |r| == |entries|
  {
    var r := seq(|entries|, i requires 0 <= i < |entries| => Cleared(entries[i]));
    assert Entries(r) == entries;
    r
  }

  /** A full queue gives up its oldest entry. */
  function WithRoom(entries: seq<DLQEntry>, maxSize: int): seq<DLQEntry> {
    if |entries| >= maxSize > 0 then entries[1..] else entries
  }

  function Evictions(entries: seq<DLQEntry>, maxSize: int): seq<Departure> {
    if |entries| >= maxSize > 0 then [Evicted(entries[0])] else []
  }

  /** What was popped, in order. */
  ghost function PoppedOf(gone: seq<Departure>): seq<DLQEntry> {
    if gone == [] then []
    else
      var last := gone[|gone| - 1];
      PoppedOf(gone[..|gone| - 1]) + if last.Popped? then [last.entry] else []
  }

  datatype Tally = Tally(popped: nat, evicted: nat, cleared: nat)

  ghost function Count(gone: seq<Departure>): Tally {
    if gone == [] then Tally(0, 0, 0)
    else
      var t := Count(gone[..|gone| - 1]);
      match gone[|gone| - 1]
      case Popped(_) => t.(popped := t.popped + 1)
      case Evicted(_) => t.(evicted := t.evicted + 1)
      case Cleared(_) => t.(cleared := t.cleared + 1)
  }

  /** Every departure is a pop, an eviction or a clearing. */
  lemma {:induction false} DeparturesAddUp(gone: seq<Departure>)
    ensures Count(gone).popped + Count(gone).evicted + Count(gone).cleared == |gone|
    ensures Count(gone).popped == |PoppedOf(gone)|
  {
    if gone == [] {
    } else {
      DeparturesAddUp(gone[..|gone| - 1]);
    }
  }

  /** `s` is `t` with some entries left out: its last entry is the last of `t`, or comes before it. */
  ghost predicate Subsequence(s: seq<DLQEntry>, t: seq<DLQEntry>) {
    s == []
    || (t != [] && s[|s| - 1] == t[|t| - 1] && Subsequence(s[..|s| - 1], t[..|t| - 1]))
    || (t != [] && Subsequence(s, t[..|t| - 1]))
  }

  lemma SkipLast(s: seq<DLQEntry>, t: seq<DLQEntry>, last: DLQEntry)
    requires Subsequence(s, t)
    ensures Subsequence(s, t + [last])
  {
  }

  lemma TakeLast(s: seq<DLQEntry>, t: seq<DLQEntry>, last: DLQEntry)
    requires Subsequence(s, t)
    ensures Subsequence(s + [last], t + [last])
  {
  }

  /** Pops come out in push order. */
  lemma {:induction false} PopsInOrder(gone: seq<Departure>)
    ensures Subsequence(PoppedOf(gone), Entries(gone))
  {
    hide Subsequence;
    if gone == [] {
      NothingPopped();
    } else {
      var last := gone[|gone| - 1];
      var rest := gone[..|gone| - 1];
      PopsInOrder(rest);
      assert Entries(gone) == Entries(rest) + [last.entry];
      if last.Popped? {
        TakeLast(PoppedOf(rest), Entries(rest), last.entry);
      } else {
        SkipLast(PoppedOf(rest), Entries(rest), last.entry);
        assert PoppedOf(gone) == PoppedOf(rest);
      }
    }
  }

  lemma NothingPopped()
    ensures Subsequence(PoppedOf([]), Entries([]))
  {
  }

  class DeadLetterQueue {
    var entries: seq<DLQEntry>
    const maxSize: int
    ghost var pushed: seq<DLQEntry>    // everything ever pushed
    ghost var gone: seq<Departure>     // everything that has left, and how

    /** Held entries are the most recent pushes, at most `maxSize` of them; the older ones are accounted for. */
    ghost predicate Valid()
      reads this
    {
      0 < maxSize && |entries| <= maxSize && pushed == Entries(gone) + entries
    }

    constructor (maxSize: int)
      ensures Valid() && entries == [] && pushed == [] && gone == []
      ensures this.maxSize == if maxSize <= 0 then 10000 else maxSize
    {
      this.maxSize := if maxSize <= 0 then 10000 else maxSize;
      entries, pushed, gone := [], [], [];
    }

    method Push(entry: DLQEntry)
      requires Valid()
      modifies this
      ensures Valid() && pushed == old(pushed) + [entry]
      ensures entries == WithRoom(old(entries), maxSize) + [entry]
      ensures gone == old(gone) + Evictions(old(entries), maxSize)
      ensures |old(entries)| < maxSize ==> entries == old(entries) + [entry] && gone == old(gone)
      ensures |old(entries)| == maxSize ==>
        entries == old(entries)[1..] + [entry] && gone == old(gone) + [Evicted(old(entries)[0])]
    {
      pushed := pushed + [entry];
      if |entries| >= maxSize {
        EntriesJoin(gone, [Evicted(entries[0])]);
        gone := gone + [Evicted(entries[0])];
        entries := entries[1..];
      }
      entries := entries + [entry];
    }

    method Pop() returns (r: Option<DLQEntry>)
      requires Valid()
      modifies this
      ensures Valid() && pushed == old(pushed)
      ensures r == if old(entries) == [] then None else Some(old(entries)[0])
      ensures entries == if r.Some? then old(entries)[1..] else old(entries)
      ensures gone == old(gone) + if r.Some? then [Popped(r.value)] else []
    {
      if |entries| == 0 {
        return None;
      }
      r := Some(entries[0]);
      EntriesJoin(gone, [Popped(entries[0])]);
      gone := gone + [Popped(entries[0])];
      entries := entries[1..];
    }

    method Clear()
      requires Valid()
      modifies this
      ensures Valid() && pushed == old(pushed) && entries == []
      ensures gone == old(gone) + ClearedAll(old(entries))
      ensures |gone| == |old(gone)| + |old(entries)| && gone[..|old(gone)|] == old(gone)
      ensures forall i :: 0 <= i < |old(entries)| ==> gone[|old(gone)| + i] == Cleared(old(entries)[i])
    {
      EntriesJoin(gone, ClearedAll(entries));
      gone := gone + ClearedAll(entries);
      entries := [];
    }

    /** The history accounts for everything, in any state the methods can produce. */
    lemma Conservation()
      requires Valid()
      ensures |pushed| == Count(gone).popped + Count(gone).evicted + Count(gone).cleared + |entries|
      ensures Count(gone).popped == |PoppedOf(gone)|
      ensures |entries| <= maxSize && entries == pushed[|pushed| - |entries|..]
      ensures Subsequence(PoppedOf(gone), pushed[..|gone|])
    {
      DeparturesAddUp(gone);
      PopsInOrder(gone);
      assert pushed[..|gone|] == Entries(gone);
    }
  }
}
