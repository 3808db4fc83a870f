/** The path hashes that keep a branch alternative from being tried twice. */
module PathFilter {
  import opened Basics

  const TABLE_SIZE: nat := 16384

  /** A line of a simulation: a clock mark, or a statement, which may be a branch. */
  datatype Logged = Clock(clock: nat) | Statement(id: nat, isBranch: bool)

  /** A constraint, as far as the search looks at it. */
  datatype Entry = Entry(line: Logged, clock: nat, index: nat, hash: nat) {
    predicate IsBranch() {
      line.Statement? && line.isBranch
    }
  }

  type Table = t: seq<nat> | |t| == TABLE_SIZE witness seq(TABLE_SIZE, _ => 0)

  /** The hash after taking branch `id` at stack position `index`, in 32-bit arithmetic. */
  function Mix(table: Table, hash: nat, id: nat, index: nat): (h: nat)
    ensures h < UINT_RANGE
  {
    (hash + table[id % TABLE_SIZE] * index) % UINT_RANGE
  }

  /** The path hash after some lines. */
  function HashAfter(table: Table, log: seq<Logged>): nat {
    if log == [] then 0
    else
      var front, last := log[..|log| - 1], log[|log| - 1];
      if last.Statement? && last.isBranch then Mix(table, HashAfter(table, front), last.id, |front|)
      else HashAfter(table, front)
  }

  function ClockAfter(log: seq<Logged>): nat {
    if log == [] then 0
    else match log[|log| - 1]
      case Clock(c) => c
      case Statement(_, _) => ClockAfter(log[..|log| - 1])
  }

  /** The stack entry of the last line. */
  function LastEntry(table: Table, log: seq<Logged>): Entry
    requires log != []
  {
    var front, last := log[..|log| - 1], log[|log| - 1];
    if last.Clock? then Entry(last, last.clock, 0, 0)
    else Entry(last, ClockAfter(front), |front|, if last.isBranch then HashAfter(table, front) else 0)
  }

  function StackOf(table: Table, log: seq<Logged>): (s: seq<Entry>)
    ensures |s| == |log|
  {
    if log == [] then [] else StackOf(table, log[..|log| - 1]) + [LastEntry(table, log)]
  }

  /** The hashes recorded while a stack is built. */
  function Recorded(table: Table, log: seq<Logged>): (hs: set<nat>)
    ensures forall h | h in hs :: h < UINT_RANGE
  {
    if log == [] then {}
    else
      var last := log[|log| - 1];
      Recorded(table, log[..|log| - 1]) + if last.Statement? && last.isBranch then {HashAfter(table, log)} else {}
  }

  /** What one more line adds. */
  lemma LineSnoc(table: Table, log: seq<Logged>, line: Logged)
    ensures var hash, clock := HashAfter(table, log), ClockAfter(log);
            var taken := line.Statement? && line.isBranch;
            && StackOf(table, log + [line]) == StackOf(table, log) +
                 [if line.Clock? then Entry(line, line.clock, 0, 0)
                  else Entry(line, clock, |log|, if taken then hash else 0)]
            && HashAfter(table, log + [line]) == (if taken then Mix(table, hash, line.id, |log|) else hash)
            && ClockAfter(log + [line]) == if line.Clock? then line.clock else clock
  {
    assert (log + [line])[..|log|] == log;
  }

  /** The statements a simulation goes through. */
  function Statements(log: seq<Logged>): set<nat> {
    set l | l in log && l.Statement? :: l.id
  }

  lemma OneMoreLine(table: Table, log: seq<Logged>, line: Logged)
    ensures Statements(log + [line]) == Statements(log) + if line.Statement? then {line.id} else {}
    ensures Recorded(table, log + [line])
         == Recorded(table, log) + if line.Statement? && line.isBranch then {HashAfter(table, log + [line])} else {}
  {
    assert (log + [line])[..|log|] == log;
    forall id | id in Statements(log + [line])
      ensures id in Statements(log) + if line.Statement? then {line.id} else {}
    {
      var l :| l in log + [line] && l.Statement? && l.id == id;
      assert l in log || l == line;
    }
    forall id | id in Statements(log) ensures id in Statements(log + [line]) {
      var l :| l in log && l.Statement? && l.id == id;
      assert l in log + [line];
    }
    assert line in log + [line];
  }

  lemma {:induction false} EntryAt(table: Table, log: seq<Logged>, p: nat)
    requires p < |log|
    ensures StackOf(table, log)[p] == LastEntry(table, log[..p + 1])
  {
    if p == |log| - 1 {
      assert log[..p + 1] == log;
    } else {
      EntryAt(table, log[..|log| - 1], p);
      assert log[..|log| - 1][..p + 1] == log[..p + 1];
    }
  }

  /** A mark beyond clock 0 is a stack entry beyond clock 0. */
  lemma SomeClockedEntry(table: Table, log: seq<Logged>) returns (m: nat)
    requires exists l | l in log :: l.Clock? && l.clock > 0
    ensures m < |log| && StackOf(table, log)[m].clock > 0
  {
    var l :| l in log && l.Clock? && l.clock > 0;
    m :| m < |log| && log[m] == l;
    EntryAt(table, log, m);
  }

  lemma {:induction false} RecordedAt(table: Table, log: seq<Logged>, p: nat)
    requires p < |log| && log[p].Statement? && log[p].isBranch
    ensures HashAfter(table, log[..p + 1]) in Recorded(table, log)
  {
    if p == |log| - 1 {
      assert log[..p + 1] == log;
    } else {
      RecordedAt(table, log[..|log| - 1], p);
      assert log[..|log| - 1][..p + 1] == log[..p + 1];
    }
  }

  /** The branch at a stack position, if there is one. */
  function BranchAt(log: seq<Logged>, p: nat): set<nat>
    requires p < |log|
  {
    if log[p].Statement? && log[p].isBranch then {log[p].id} else {}
  }

  /** Before position n both simulations take the same branches at the same positions. */
  ghost predicate SameBranches(a: seq<Logged>, b: seq<Logged>, n: nat)
    requires n <= |a| && n <= |b|
  {
    forall p | 0 <= p < n :: BranchAt(a, p) == BranchAt(b, p)
  }

  /** Two simulations that take the same branches at the same positions have the same hash. */
  lemma {:induction false} SameBranchesSameHash(table: Table, a: seq<Logged>, b: seq<Logged>, n: nat)
    requires n <= |a| && n <= |b| && SameBranches(a, b, n)
    ensures HashAfter(table, a[..n]) == HashAfter(table, b[..n])
  {
    if n > 0 {
      var m := n - 1;
      assert BranchAt(a, m) == BranchAt(b, m);
      SameBranchesSameHash(table, a, b, m);
      assert a[..n][..m] == a[..m] && b[..n][..m] == b[..m];
      if BranchAt(a, m) != {} {
        assert a[m].id in BranchAt(b, m);
      }
    }
  }

  /** The hash a constraint would lead to if the branch `alt` were taken instead. */
  function AltHash(table: Table, e: Entry, alt: nat): (h: nat)
    ensures h < UINT_RANGE
  {
    Mix(table, e.hash, alt, e.index)
  }

  // ----- the hashes as sums -----

  /** The sum over the branches of a log of their table values times their positions. */
  function BranchSum(table: Table, log: seq<Logged>): nat {
    if log == [] then 0
    else
      var n := |log| - 1;
      BranchSum(table, log[..n]) + if log[n].Statement? && log[n].isBranch then table[log[n].id % 16384] * n else 0
  }

  lemma ModAdd(a: nat, b: nat)
    ensures (a % 0x1_0000_0000 + b) % 0x1_0000_0000 == (a + b) % 0x1_0000_0000
  {
    var q := a / 0x1_0000_0000;
    assert a + b == 0x1_0000_0000 * q + (a % 0x1_0000_0000 + b);
  }

  /** The path hash is this sum in 32-bit arithmetic. */
  lemma {:induction false} HashIsSum(table: Table, log: seq<Logged>)
    ensures HashAfter(table, log) == BranchSum(table, log) % 0x1_0000_0000
  {
    if log != [] {
      var n := |log| - 1;
      HashIsSum(table, log[..n]);
      ModAdd(BranchSum(table, log[..n]), table[(if log[n].Statement? then log[n].id else 0) % 16384] * n);
    }
  }

  lemma MixIs(table: Table, hash: nat, id: nat, index: nat)
    ensures Mix(table, hash, id, index) == (hash + table[id % 16384] * index) % 0x1_0000_0000
  {
  }

  /** The clock of the last mark before position n, or 0. */
  ghost predicate ClockBefore(log: seq<Logged>, n: nat, c: nat)
    requires n <= |log|
  {
    || (c == 0 && forall i | 0 <= i < n :: !log[i].Clock?)
    || exists j | 0 <= j < n :: log[j] == Clock(c) && forall i | j < i < n :: !log[i].Clock?
  }

  lemma {:induction false} ClockAfterIsLast(log: seq<Logged>, n: nat)
    requires n <= |log|
    ensures ClockBefore(log, n, ClockAfter(log[..n]))
  {
    if n > 0 {
      var m := n - 1;
      assert log[..n][..m] == log[..m];
      ClockAfterIsLast(log, m);
      if log[m].Statement? && !(ClockAfter(log[..m]) == 0 && forall i | 0 <= i < m :: !log[i].Clock?) {
        var c := ClockAfter(log[..m]);
        var j :| 0 <= j < m && log[j] == Clock(c) && forall i | j < i < m :: !log[i].Clock?;
        assert forall i | j < i < n :: !log[i].Clock?;
      }
    }
  }

  /** The stack entry at position p: the line, the clock of the last mark up to it, the position, and, for a branch,
      the sum over the branches before it. */
  lemma EntryIs(table: Table, log: seq<Logged>, p: nat)
    requires p < |log|
    ensures var e := StackOf(table, log)[p];
            && e.line == log[p] && ClockBefore(log, p + 1, e.clock)
            && (log[p].Statement? ==> e.index == p)
            && (log[p].Statement? && log[p].isBranch ==> e.hash == BranchSum(table, log[..p]) % 0x1_0000_0000)
  {
    EntryAt(table, log, p);
    assert log[..p + 1][..p] == log[..p];
    HashIsSum(table, log[..p]);
    ClockAfterIsLast(log, p + 1);
    ClockAfterIsLast(log, p);
  }

  /** What is recorded are the sums up to each branch, and nothing else. */
  lemma {:induction false} RecordedAreSums(table: Table, log: seq<Logged>, h: nat)
    ensures h in Recorded(table, log) <==>
              exists p | 0 <= p < |log| && log[p].Statement? && log[p].isBranch ::
                h == BranchSum(table, log[..p + 1]) % 0x1_0000_0000
  {
    if log != [] {
      var n := |log| - 1;
      var front := log[..n];
      RecordedAreSums(table, front, h);
      HashIsSum(table, log);
      assert log[..n + 1] == log;
      assert forall p | 0 <= p < n :: front[..p + 1] == log[..p + 1] && front[p] == log[p];
    }
  }

  /** The hash of an alternative, from the fields of its entry. */
  lemma AltHashIs(table: Table, e: Entry, alt: nat, added: nat)
    requires added == table[alt % 16384] * e.index
    ensures AltHash(table, e, alt) == (e.hash + added) % 0x1_0000_0000
  {
  }

  /** The hash of an alternative: the sum over the branches before it and its own table value times the position. */
  lemma AltHashIsSum(table: Table, log: seq<Logged>, p: nat, alt: nat, added: nat)
    requires p < |log| && log[p].Statement? && log[p].isBranch && added == table[alt % 16384] * p
    ensures AltHash(table, StackOf(table, log)[p], alt) == (BranchSum(table, log[..p]) + added) % 0x1_0000_0000
  {
    var e, s := StackOf(table, log)[p], BranchSum(table, log[..p]);
    EntryIs(table, log, p);
    AltHashIs(table, e, alt, added);
    ModAdd(s, added);
  }

  /** Two alternatives of one branch have the same hash exactly when their table values times the position agree. */
  lemma SameHashIff(table: Table, log: seq<Logged>, p: nat, alt: nat, other: nat, x: nat, y: nat)
    requires p < |log| && log[p].Statement? && log[p].isBranch
    requires x == table[alt % 16384] * p && y == table[other % 16384] * p
    ensures var e := StackOf(table, log)[p];
            AltHash(table, e, alt) == AltHash(table, e, other) <==> x % 0x1_0000_0000 == y % 0x1_0000_0000
  {
    AltHashIsSum(table, log, p, alt, x);
    AltHashIsSum(table, log, p, other, y);
    SameModulo(BranchSum(table, log[..p]), x, y);
  }

  lemma SameModulo(s: nat, a: nat, b: nat)
    ensures (s + a) % 0x1_0000_0000 == (s + b) % 0x1_0000_0000 <==> a % 0x1_0000_0000 == b % 0x1_0000_0000
  {
  }

  /** The filter never misses: when a new stack agrees with an earlier one on the branches before position p,
      and the earlier run took branch b there, then b is rejected as an alternative at p. */
  lemma FilterNeverMisses(table: Table, earlier: seq<Logged>, now: seq<Logged>, p: nat, taken: set<nat>)
    requires p < |earlier| && p < |now|
    requires earlier[p].Statement? && earlier[p].isBranch && now[p].Statement? && now[p].isBranch
    requires SameBranches(earlier, now, p)
    requires Recorded(table, earlier) <= taken
    ensures AltHash(table, StackOf(table, now)[p], earlier[p].id) in taken
  {
    EntryAt(table, now, p);
    RecordedAt(table, earlier, p);
    assert earlier[..p + 1][..p] == earlier[..p] && now[..p + 1][..p] == now[..p];
    SameBranchesSameHash(table, earlier, now, p);
  }

  // ----- how many flips there can be -----

  lemma {:induction false} BoundedSet(s: set<nat>, n: nat)
    requires forall x | x in s :: x < n
    ensures |s| <= n
  {
    if n > 0 {
      BoundedSet(s - {n - 1}, n - 1);
    } else {
      assert s == {};
    }
  }

  lemma {:induction false} DistinctCount(s: seq<nat>)
    requires Distinct(s)
    ensures |Elements(s)| == |s|
  {
    if s != [] {
      var front, last := s[..|s| - 1], s[|s| - 1];
      DistinctCount(front);
      assert forall a | 0 <= a < |front| :: front[a] == s[a] != last;
      assert Elements(s) == Elements(front) + {last};
    }
  }

  /** Flips chosen with pairwise distinct hashes are at most as many as there are hashes. */
  lemma FlipBound(flips: seq<nat>)
    requires Distinct(flips) && forall h | h in flips :: h < UINT_RANGE
    ensures |flips| <= UINT_RANGE
  {
    DistinctCount(flips);
    BoundedSet(Elements(flips), UINT_RANGE);
  }
}
