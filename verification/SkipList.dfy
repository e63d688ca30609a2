/** The memtable's skip list (db/skiplist.h): one writer that links a node bottom up, readers
    that run beside it.  Nodes are numbered as they are allocated; node 0 is the head.  The
    links are sequentially consistent here. */
module SkipList {
  import opened DbFormat
  import opened Entries

  const MAX_HEIGHT: nat := 12

  /** The nodes, their forward links per level, and which nodes each level has taken in. */
  datatype Lists = Lists(keys: seq<UserKey>, next: seq<seq<Option<nat>>>, maxHeight: nat, ghost present: seq<set<nat>>)

  /** The head comes before every key. */
  predicate KeyBefore(s: Lists, n: nat, k: UserKey)
    requires n < |s.keys|
  {
    n == 0 || s.keys[n] < k
  }

  ghost predicate Known(s: Lists, level: nat, n: nat)
    requires level < |s.present|
  {
    n == 0 || n in s.present[level]
  }

  /** The link of `n` at `level` leads to the next larger key of that level. */
  ghost predicate LinkOk(s: Lists, level: nat, n: nat)
    requires level < |s.present| && n < |s.keys| == |s.next| && level < |s.next[n]|
    requires forall m | m in s.present[level] :: m < |s.keys|
  {
    match s.next[n][level]
    case None => forall m | m in s.present[level] :: !KeyBefore(s, n, s.keys[m])
    case Some(to) =>
      && to in s.present[level] && to != 0 && KeyBefore(s, n, s.keys[to])
      && forall m | m in s.present[level] :: KeyBefore(s, n, s.keys[m]) ==> s.keys[to] <= s.keys[m]
  }

  ghost predicate LevelOk(s: Lists, level: nat)
    requires level < |s.present|
  {
    && |s.keys| == |s.next|
    && (forall n | n in s.present[level] :: 0 < n < |s.keys| && level < |s.next[n]|)
    && (forall n, m | n in s.present[level] && m in s.present[level] && n != m :: s.keys[n] != s.keys[m])
    && |s.keys| > 0 && |s.next[0]| == MAX_HEIGHT && level < MAX_HEIGHT
    && (forall n | 0 <= n < |s.keys| && Known(s, level, n) :: LinkOk(s, level, n))
  }

  /** Every level is a sorted list, and a sublist of the level below. */
  ghost predicate WellFormed(s: Lists) {
    && |s.present| == MAX_HEIGHT && 1 <= s.maxHeight <= MAX_HEIGHT
    && (forall level | 0 <= level < MAX_HEIGHT :: LevelOk(s, level))
    && (forall level | 0 < level < MAX_HEIGHT :: SubList(s, level))
    && (forall level | s.maxHeight <= level < MAX_HEIGHT :: s.present[level] == {})
  }

  ghost predicate SubList(s: Lists, level: nat)
    requires 0 < level < |s.present|
  {
    s.present[level] <= s.present[level - 1]
  }

  /** The answer to a search: the node with the least key not before the target, among
      everything linked at level 0. */
  ghost predicate LeastFrom(s: Lists, target: UserKey, r: Option<nat>)
    requires WellFormed(s)
  {
    match r
    case None => forall m | m in s.present[0] && m < |s.keys| :: s.keys[m] < target
    case Some(n) => n in s.present[0] && n < |s.keys| && s.keys[n] >= target
                    && forall m | m in s.present[0] && m < |s.keys| && s.keys[m] >= target :: s.keys[n] <= s.keys[m]
  }

  // ---- a reader, one link at a time ----

  datatype Reader = Reading(x: nat, level: nat) | Returned(r: Option<nat>)

  /** What a reader may rely on: it stands on a known node of its level, before its target. */
  ghost predicate ReaderOk(s: Lists, target: UserKey, rd: Reader)
    requires WellFormed(s)
  {
    rd.Reading? ==> rd.level < MAX_HEIGHT && rd.x < |s.keys| && Known(s, rd.level, rd.x) && KeyBefore(s, rd.x, target)
  }

  /** One turn of the loop in FindGreaterOrEqual. */
  function ReaderStep(s: Lists, target: UserKey, rd: Reader): Reader
    requires rd.Reading? && rd.x < |s.next| == |s.keys| && rd.level < |s.next[rd.x]|
    requires s.next[rd.x][rd.level].Some? ==> s.next[rd.x][rd.level].value < |s.keys|
  {
    var next := s.next[rd.x][rd.level];
    if next.Some? && s.keys[next.value] < target then Reading(next.value, rd.level)
    else if rd.level == 0 then Returned(next)
    else Reading(rd.x, rd.level - 1)
  }

  lemma LinkIsKnown(s: Lists, level: nat, n: nat)
    requires WellFormed(s) && level < MAX_HEIGHT && n < |s.keys| && Known(s, level, n)
    ensures n < |s.next| && level < |s.next[n]| && LevelOk(s, level) && LinkOk(s, level, n)
    ensures s.next[n][level].Some? ==> s.next[n][level].value < |s.keys| && s.next[n][level].value in s.present[level]
  {
    assert LevelOk(s, level);
  }

  /** A step of the reader keeps what it relies on; the step that returns gives the answer
      that is right in the state of its last read. */
  lemma ReaderStepOk(s: Lists, target: UserKey, rd: Reader)
    requires WellFormed(s) && rd.Reading? && ReaderOk(s, target, rd)
    ensures rd.x < |s.next| == |s.keys| && rd.level < |s.next[rd.x]|
    ensures s.next[rd.x][rd.level].Some? ==> s.next[rd.x][rd.level].value < |s.keys|
    ensures ReaderOk(s, target, ReaderStep(s, target, rd))
    ensures ReaderStep(s, target, rd).Returned? ==> LeastFrom(s, target, ReaderStep(s, target, rd).r)
  {
    LinkIsKnown(s, rd.level, rd.x);
    var next := s.next[rd.x][rd.level];
    if next.Some? && s.keys[next.value] < target {
    } else if rd.level == 0 {
      forall m | m in s.present[0] && m < |s.keys| && s.keys[m] >= target ensures KeyBefore(s, rd.x, s.keys[m]) {}
    } else {
      assert SubList(s, rd.level);
    }
  }

  // ---- the writer, one store at a time ----

  /** A new node, not yet linked anywhere. */
  ghost predicate Allocated(s: Lists, s': Lists, key: UserKey, height: nat) {
    && 1 <= height <= MAX_HEIGHT
    && s' == s.(keys := s.keys + [key], next := s.next + [seq(height, _ => None)])
  }

  ghost predicate HeightRaised(s: Lists, s': Lists, height: nat) {
    s.maxHeight <= height <= MAX_HEIGHT && s' == s.(maxHeight := height)
  }

  /** Node `x` gets the successor of `p` and becomes it. */
  function Linked(s: Lists, level: nat, p: nat, x: nat): Lists
    requires |s.keys| == |s.next| && p < |s.next| && x < |s.next| && p != x && level < |s.next[p]| && level < |s.next[x]| && level < |s.present|
  {
    s.(next := s.next[x := s.next[x][level := s.next[p][level]]][p := s.next[p][level := Some(x)]],
       present := s.present[level := s.present[level] + {x}])
  }

  /** The place for `x` at a level: right behind `p`. */
  ghost predicate PlaceFor(s: Lists, level: nat, p: nat, x: nat) {
    && WellFormed(s) && |s.next| == |s.keys| && level < s.maxHeight && 0 < x < |s.keys| && p < |s.keys| && p != x
    && level < |s.next[x]| && Known(s, level, p) && x !in s.present[level]
    && KeyBefore(s, p, s.keys[x])
    && (forall m | m in s.present[level] && m < |s.keys| :: KeyBefore(s, p, s.keys[m]) ==> s.keys[x] < s.keys[m])
    && (level > 0 ==> x in s.present[level - 1])
    && (forall m | m in s.present[level] && m < |s.keys| :: s.keys[m] != s.keys[x])
  }

  lemma NewLinkOk(s: Lists, level: nat, p: nat, x: nat)
    requires PlaceFor(s, level, p, x) && level < |s.next[p]|
    ensures (forall m | m in s.present[level] + {x} :: m < |s.keys|)
    ensures LinkOk(Linked(s, level, p, x), level, x) && LinkOk(Linked(s, level, p, x), level, p)
  {
    LinkIsKnown(s, level, p);
    hide WellFormed, LevelOk;
  }

  lemma OldLinkOk(s: Lists, level: nat, p: nat, x: nat, n: nat)
    requires PlaceFor(s, level, p, x) && n < |s.keys| && Known(s, level, n) && n != x && n != p
    requires level < |s.next[p]| && n < |s.next| && level < |s.next[n]|
    ensures (forall m | m in s.present[level] + {x} :: m < |s.keys|) && LinkOk(Linked(s, level, p, x), level, n)
  {
    LinkIsKnown(s, level, p);
    LinkIsKnown(s, level, n);
    LinkBeside(s, level, p, x, n);
    hide WellFormed, LevelOk;
  }

  lemma LinkedLinkOk(s: Lists, level: nat, p: nat, x: nat, n: nat)
    requires PlaceFor(s, level, p, x) && n < |s.keys| && (n == x || Known(s, level, n))
    ensures level < |s.next[p]| && level < |s.next[n]|
    ensures (forall m | m in s.present[level] + {x} :: m < |s.keys|) && LinkOk(Linked(s, level, p, x), level, n)
  {
    LinkIsKnown(s, level, p);
    NewLinkOk(s, level, p, x);
    if n != x && n != p {
      LinkIsKnown(s, level, n);
      OldLinkOk(s, level, p, x, n);
    }
  }

  lemma LinkedLevelOk(s: Lists, level: nat, p: nat, x: nat)
    requires PlaceFor(s, level, p, x)
    ensures level < |s.next[p]| && LevelOk(Linked(s, level, p, x), level)
  {
    LinkIsKnown(s, level, p);
    hide LinkOk, WellFormed, KeyBefore;
    var s' := Linked(s, level, p, x);
    forall n | 0 <= n < |s'.keys| && Known(s', level, n) ensures level < |s'.next[n]| && LinkOk(s', level, n) {
      LinkedLinkOk(s, level, p, x, n);
    }
  }

  /** A link that does not cross the new key stays right. */
  lemma LinkBeside(s: Lists, level: nat, p: nat, x: nat, n: nat)
    requires PlaceFor(s, level, p, x) && n < |s.keys| && Known(s, level, n) && n != p && n != x
    ensures n < |s.next| && level < |s.next[n]|
    ensures match s.next[n][level]
            case None => !KeyBefore(s, n, s.keys[x])
            case Some(to) => to < |s.keys| && (KeyBefore(s, n, s.keys[x]) ==> s.keys[to] <= s.keys[x])
  {
    LinkIsKnown(s, level, n);
    LinkIsKnown(s, level, p);
    if n == 0 && p != 0 {
      assert p in s.present[level] && KeyBefore(s, 0, s.keys[p]);
    }
    if n != 0 && p == 0 {
      assert n in s.present[level] && KeyBefore(s, 0, s.keys[n]);
    }
    if n != 0 && p != 0 {
      assert n in s.present[level] && p in s.present[level];
      assert KeyBefore(s, p, s.keys[n]) ==> s.keys[x] < s.keys[n];
      assert KeyBefore(s, n, s.keys[p]) || s.keys[p] < s.keys[n];
    }
  }

  /** Linking at one level leaves the other levels as they are. */
  lemma OtherLevelOk(s: Lists, level: nat, p: nat, x: nat, other: nat)
    requires PlaceFor(s, level, p, x) && other < MAX_HEIGHT && other != level
    ensures |s.next| == |s.keys| && level < |s.next[p]| && LevelOk(Linked(s, level, p, x), other)
  {
    LinkIsKnown(s, level, p);
    assert LevelOk(s, other);
    var s' := Linked(s, level, p, x);
    forall n | 0 <= n < |s'.keys| && Known(s', other, n) ensures LinkOk(s', other, n) {
      LinkIsKnown(s, other, n);
      assert s'.next[n][other] == s.next[n][other];
    }
  }

  lemma LinkedIsWellFormed(s: Lists, level: nat, p: nat, x: nat)
    requires PlaceFor(s, level, p, x)
    ensures |s.next| == |s.keys| && level < |s.next[p]| && WellFormed(Linked(s, level, p, x))
  {
    LinkedLevelOk(s, level, p, x);
    forall other | 0 <= other < MAX_HEIGHT && other != level ensures LevelOk(Linked(s, level, p, x), other) {
      OtherLevelOk(s, level, p, x, other);
    }
    var s' := Linked(s, level, p, x);
    forall l | 0 < l < MAX_HEIGHT ensures SubList(s', l) {
      assert SubList(s, l);
    }
    hide LevelOk;
  }

  lemma AllocatedIsWellFormed(s: Lists, s': Lists, key: UserKey, height: nat)
    requires WellFormed(s) && Allocated(s, s', key, height)
    ensures WellFormed(s') && |s'.next| == |s'.keys| == |s.keys| + 1
  {
    assert LevelOk(s, 0);
    forall level | 0 <= level < MAX_HEIGHT ensures LevelOk(s', level) {
      assert LevelOk(s, level);
      forall n | 0 <= n < |s'.keys| && Known(s', level, n) ensures LinkOk(s', level, n) {
        LinkIsKnown(s, level, n);
      }
    }
    forall l | 0 < l < MAX_HEIGHT ensures SubList(s', l) {
      assert SubList(s, l);
    }
  }

  lemma RaisedIsWellFormed(s: Lists, s': Lists, height: nat)
    requires WellFormed(s) && HeightRaised(s, s', height)
    ensures WellFormed(s')
  {
    forall level | 0 <= level < MAX_HEIGHT ensures LevelOk(s', level) {
      assert LevelOk(s, level);
      forall n | 0 <= n < |s'.keys| && Known(s', level, n) ensures LinkOk(s', level, n) {
        LinkIsKnown(s, level, n);
      }
    }
    forall l | 0 < l < MAX_HEIGHT ensures SubList(s', l) {
      assert SubList(s, l);
    }
  }

  /** What any number of writer steps leave alone: nodes keep their keys, levels only grow. */
  ghost predicate Grown(s: Lists, s': Lists) {
    && |s.keys| <= |s'.keys| && (forall n | 0 <= n < |s.keys| :: s'.keys[n] == s.keys[n])
    && |s.present| == |s'.present| == MAX_HEIGHT
    && forall level | 0 <= level < MAX_HEIGHT :: s.present[level] <= s'.present[level]
  }

  /** The writer cannot pull the ground from under a reader. */
  lemma ReaderSurvives(s: Lists, s': Lists, target: UserKey, rd: Reader)
    requires WellFormed(s) && WellFormed(s') && Grown(s, s') && ReaderOk(s, target, rd)
    ensures ReaderOk(s', target, rd)
  {
  }

  // ---- interleavings ----

  ghost predicate LinkStep(s: Lists, s': Lists, level: nat, p: nat, x: nat) {
    PlaceFor(s, level, p, x) && level < |s.next[p]| && s' == Linked(s, level, p, x)
  }

  /** What the writer does between two moments another thread may see. */
  datatype WriterStep = Allocate(key: UserKey, height: nat) | RaiseHeight(max: nat) | LinkAt(level: nat, p: nat, x: nat)

  ghost predicate Writes(s: Lists, step: WriterStep, s': Lists) {
    match step
    case Allocate(key, height) => Allocated(s, s', key, height)
    case RaiseHeight(max) => HeightRaised(s, s', max)
    case LinkAt(level, p, x) => LinkStep(s, s', level, p, x)
  }

  lemma WriterKeeps(s: Lists, step: WriterStep, s': Lists)
    requires WellFormed(s) && Writes(s, step, s')
    ensures WellFormed(s') && Grown(s, s')
  {
    match step
    case Allocate(key, height) => AllocatedIsWellFormed(s, s', key, height);
    case RaiseHeight(max) => RaisedIsWellFormed(s, s', max);
    case LinkAt(level, p, x) => LinkedIsWellFormed(s, level, p, x);
  }

  datatype Moment = Moment(lists: Lists, reader: Reader)

  datatype Turn = WriterTurn(step: WriterStep) | ReaderTurn

  /** One search running beside the writer, every step of either in any order.  The reader
      may have seen any height, old or new. */
  ghost predicate Interleaving(ms: seq<Moment>, turns: seq<Turn>, target: UserKey) {
    && |ms| == |turns| + 1
    && WellFormed(ms[0].lists) && ms[0].reader.Reading? && ms[0].reader.x == 0 && ms[0].reader.level < MAX_HEIGHT
    && forall i | 0 <= i < |turns| :: TurnTaken(ms[i], turns[i], ms[i + 1], target)
  }

  ghost predicate TurnTaken(m: Moment, turn: Turn, m': Moment, target: UserKey) {
    match turn
    case WriterTurn(step) => Writes(m.lists, step, m'.lists) && m'.reader == m.reader
    case ReaderTurn =>
      && m'.lists == m.lists && WellFormed(m.lists) && m.reader.Reading? && ReaderOk(m.lists, target, m.reader)
      && CanStep(m.lists, m.reader) && m'.reader == ReaderStep(m.lists, target, m.reader)
  }

  predicate CanStep(s: Lists, rd: Reader)
    requires rd.Reading?
  {
    && rd.x < |s.next| == |s.keys| && rd.level < |s.next[rd.x]|
    && (s.next[rd.x][rd.level].Some? ==> s.next[rd.x][rd.level].value < |s.keys|)
  }

  lemma {:induction false} InterleavingKeeps(ms: seq<Moment>, turns: seq<Turn>, target: UserKey, i: nat)
    requires Interleaving(ms, turns, target) && i < |ms|
    ensures WellFormed(ms[i].lists) && ReaderOk(ms[i].lists, target, ms[i].reader)
  {
    if i > 0 {
      InterleavingKeeps(ms, turns, target, i - 1);
      var m, m' := ms[i - 1], ms[i];
      assert TurnTaken(m, turns[i - 1], m', target);
      match turns[i - 1]
      case WriterTurn(step) =>
        WriterKeeps(m.lists, step, m'.lists);
        ReaderSurvives(m.lists, m'.lists, target, m.reader);
      case ReaderTurn =>
        ReaderStepOk(m.lists, target, m.reader);
    } else {
      assert LevelOk(ms[0].lists, 0);
    }
  }

  /** A search that runs beside the writer can always go on, and returns what was the right
      answer at the moment of its last read. */
  lemma SearchIsLinearizable(ms: seq<Moment>, turns: seq<Turn>, target: UserKey, i: nat)
    requires Interleaving(ms, turns, target) && i < |ms| && ms[i].reader.Reading?
    ensures WellFormed(ms[i].lists) && CanStep(ms[i].lists, ms[i].reader)
    ensures i + 1 < |ms| && ms[i + 1].reader.Returned? ==> LeastFrom(ms[i].lists, target, ms[i + 1].reader.r)
  {
    InterleavingKeeps(ms, turns, target, i);
    ReaderStepOk(ms[i].lists, target, ms[i].reader);
    if i + 1 < |ms| { assert TurnTaken(ms[i], turns[i], ms[i + 1], target); }
  }

  // ---- the list as an object ----

  /** The keys a reader may find. */
  ghost function KeySet(s: Lists): set<UserKey> {
    if |s.present| > 0 then set n | n in s.present[0] && n < |s.keys| :: s.keys[n] else {}
  }

  /** The nodes a search has still before it. */
  ghost function Ahead(s: Lists, x: nat): set<nat>
    requires |s.present| > 0 && x < |s.keys|
  {
    set m | m in s.present[0] && m < |s.keys| && KeyBefore(s, x, s.keys[m])
  }

  lemma {:induction false} InLowest(s: Lists, level: nat, n: nat)
    requires WellFormed(s) && level < MAX_HEIGHT && n in s.present[level]
    ensures n in s.present[0]
  {
    if level > 0 {
      assert SubList(s, level);
      InLowest(s, level - 1, n);
    }
  }

  lemma AheadShrinks(s: Lists, level: nat, x: nat, next: nat)
    requires WellFormed(s) && level < MAX_HEIGHT && x < |s.keys| && next in s.present[level] && 0 < next < |s.keys| && KeyBefore(s, x, s.keys[next])
    ensures |Ahead(s, next)| < |Ahead(s, x)|
  {
    InLowest(s, level, next);
    assert next in Ahead(s, x) && next !in Ahead(s, next);
    assert Ahead(s, next) <= Ahead(s, x) - {next};
    SetSmaller(Ahead(s, next), Ahead(s, x), next);
  }

  lemma {:induction false} SetSmaller(a: set<nat>, b: set<nat>, x: nat)
    requires x in b && a <= b - {x}
    ensures |a| < |b|
  {
    SubsetSize(a, b - {x});
  }

  lemma {:induction false} SubsetSize(a: set<nat>, b: set<nat>)
    requires a <= b
    ensures |a| <= |b|
  {
    if a != {} {
      var x :| x in a;
      SubsetSize(a - {x}, b - {x});
    }
  }

  /** The last node of a level before a key. */
  ghost predicate LastBefore(s: Lists, level: nat, key: UserKey, p: nat)
    requires level < |s.present|
  {
    && p < |s.keys| && Known(s, level, p) && KeyBefore(s, p, key)
    && forall m | m in s.present[level] && m < |s.keys| && KeyBefore(s, p, s.keys[m]) :: s.keys[m] >= key
  }

  /** The place a search found for a new key is still free when the level's turn comes. */
  lemma PlaceIsFree(before: Lists, s: Lists, level: nat, p: nat, x: nat)
    requires WellFormed(before) && WellFormed(s) && level < s.maxHeight && x == |before.keys| > 0
    requires |s.keys| == x + 1 && s.keys[..x] == before.keys && s.keys[x] !in KeySet(before)
    requires |s.next| == |s.keys| && level < |s.next[x]| && s.present[level] == before.present[level]
    requires if level < before.maxHeight then LastBefore(before, level, s.keys[x], p) else p == 0
    requires level > 0 ==> x in s.present[level - 1]
    ensures PlaceFor(s, level, p, x)
  {
    assert LevelOk(before, level);
    forall m | m in s.present[level] ensures m < x && s.keys[m] == before.keys[m] && s.keys[m] != s.keys[x] {
      InLowest(before, level, m);
      assert before.keys[m] in KeySet(before);
    }
  }

  class SkipList {
    var keys: seq<UserKey>
    var next: seq<seq<Option<nat>>>
    var maxHeight: nat
    ghost var present: seq<set<nat>>

    ghost function State(): Lists
      reads this
    {
      Lists(keys, next, maxHeight, present)
    }

    ghost predicate Valid()
      reads this
    {
      WellFormed(State())
    }

    constructor ()
      ensures Valid() && KeySet(State()) == {}
    {
      keys, maxHeight := [0.0], 1;
      next := [seq(MAX_HEIGHT, _ => None)];
      present := seq(MAX_HEIGHT, _ => {});
      new;
      forall level | 0 <= level < MAX_HEIGHT ensures LevelOk(State(), level) {}
      forall level | 0 < level < MAX_HEIGHT ensures SubList(State(), level) {}
    }

    method FindGreaterOrEqual(key: UserKey) returns (r: Option<nat>, prev: seq<nat>)
      requires Valid()
      ensures LeastFrom(State(), key, r)
      ensures |prev| == maxHeight && forall level | 0 <= level < maxHeight :: LastBefore(State(), level, key, prev[level])
    {
      var x: nat, level: nat := 0, maxHeight - 1;
      prev := seq(maxHeight, _ => 0);
      assert LevelOk(State(), 0);
      while true
        invariant 0 <= level < maxHeight && |prev| == maxHeight
        invariant ReaderOk(State(), key, Reading(x, level))
        invariant forall l | level < l < maxHeight :: LastBefore(State(), l, key, prev[l])
        decreases level, |Ahead(State(), x)|
      {
        ReaderStepOk(State(), key, Reading(x, level));
        LinkIsKnown(State(), level, x);
        var to := next[x][level];
        if to.Some? && keys[to.value] < key {
          AheadShrinks(State(), level, x, to.value);
          x := to.value;
        } else {
          prev := prev[level := x];
          assert LastBefore(State(), level, key, x);
          if level == 0 { return to, prev; }
          level := level - 1;
        }
      }
    }

    method Contains(key: UserKey) returns (found: bool)
      requires Valid()
      ensures found <==> key in KeySet(State())
    {
      var x, prev := FindGreaterOrEqual(key);
      found := x.Some? && keys[x.value] == key;
      if x.Some? { assert x.value in State().present[0]; }
    }

    /** The latest node before a key; the head if there is none. */
    method FindLessThan(key: UserKey) returns (r: nat)
      requires Valid()
      ensures LastBefore(State(), 0, key, r)
    {
      var x: nat, level: nat := 0, maxHeight - 1;
      assert LevelOk(State(), 0);
      while true
        invariant 0 <= level < maxHeight
        invariant ReaderOk(State(), key, Reading(x, level))
        decreases level, |Ahead(State(), x)|
      {
        ReaderStepOk(State(), key, Reading(x, level));
        LinkIsKnown(State(), level, x);
        var to := next[x][level];
        if to.None? || keys[to.value] >= key {
          if level == 0 { return x; }
          level := level - 1;
        } else {
          AheadShrinks(State(), level, x, to.value);
          x := to.value;
        }
      }
    }

    /** The node with the largest key; the head if the list is empty. */
    method FindLast() returns (r: nat)
      requires Valid()
      ensures r < |keys| && Known(State(), 0, r)
      ensures forall m | m in present[0] && m < |keys| :: !KeyBefore(State(), r, keys[m])
    {
      var x: nat, level: nat := 0, maxHeight - 1;
      assert LevelOk(State(), 0);
      while true
        invariant 0 <= level < maxHeight && x < |keys| && Known(State(), level, x)
        decreases level, |Ahead(State(), x)|
      {
        LinkIsKnown(State(), level, x);
        var to := next[x][level];
        if to.None? {
          if level == 0 { return x; }
          if x != 0 { assert SubList(State(), level); }
          level := level - 1;
        } else {
          AheadShrinks(State(), level, x, to.value);
          x := to.value;
        }
      }
    }

    /** The two stores of one level: the new node's link, then the link that publishes it. */
    method LinkLevel(level: nat, p: nat, x: nat)
      requires PlaceFor(State(), level, p, x)
      modifies this`next, this`present
      ensures level < |old(next)[p]| && |old(next)| == |keys| && State() == Linked(old(State()), level, p, x) && Valid()
    {
      LinkIsKnown(State(), level, p);
      LinkedIsWellFormed(State(), level, p, x);
      next := next[x := next[x][level := next[p][level]]];
      next := next[p := next[p][level := Some(x)]];
      present := present[level := present[level] + {x}];
    }

    /** Makes room for the height of a new node, and allocates it. */
    method NewNode(key: UserKey, height: nat, prev: seq<nat>) returns (x: nat, prev': seq<nat>)
      requires Valid() && 1 <= height <= MAX_HEIGHT && |prev| == maxHeight
      modifies this`keys, this`next, this`maxHeight
      ensures Valid() && x == |old(keys)| > 0 && keys == old(keys) + [key] && |next| == |keys| && |next[x]| == height
      ensures maxHeight == (if height > old(maxHeight) then height else old(maxHeight)) && |prev'| == maxHeight
      ensures forall l | 0 <= l < maxHeight :: prev'[l] == if l < |prev| then prev[l] else 0
    {
      assert LevelOk(State(), 0);
      prev' := prev;
      if height > maxHeight {
        prev' := prev + seq(height - maxHeight, _ => 0);
        RaisedIsWellFormed(State(), State().(maxHeight := height), height);
        maxHeight := height;
      }
      ghost var raised := State();
      x := |keys|;
      keys := keys + [key];
      next := next + [seq(height, _ => None)];
      AllocatedIsWellFormed(raised, State(), key, height);
    }

    /** Insert: exactly one key more, linked bottom up. */
    method Insert(key: UserKey, height: nat)
      requires Valid() && 1 <= height <= MAX_HEIGHT && key !in KeySet(State())
      modifies this
      ensures Valid() && KeySet(State()) == old(KeySet(State())) + {key}
    {
      var found, prev := FindGreaterOrEqual(key);
      ghost var before := State();
      assert LevelOk(before, 0);
      var x;
      x, prev := NewNode(key, height, prev);
      var i := 0;
      while i < height
        invariant i <= height && Valid() && keys == before.keys + [key] && |next| == |keys| && |next[x]| == height
        invariant maxHeight >= height
        invariant forall l | 0 <= l < MAX_HEIGHT :: present[l] == if l < i then before.present[l] + {x} else before.present[l]
      {
        PlaceIsFree(before, State(), i, prev[i], x);
        LinkLevel(i, prev[i], x);
        i := i + 1;
      }
      assert LevelOk(State(), 0);
      OneKeyMore(before, State(), x, key);
    }
  }

  lemma OneKeyMore(s: Lists, s': Lists, x: nat, key: UserKey)
    requires |s.present| > 0 && |s'.present| > 0 && s'.present[0] == s.present[0] + {x}
    requires x == |s.keys| && s'.keys == s.keys + [key] && forall n | n in s.present[0] :: n < |s.keys|
    ensures KeySet(s') == KeySet(s) + {key}
  {
    forall k | k in KeySet(s) + {key} ensures k in KeySet(s') {
      if k == key {
        assert x in s'.present[0] && s'.keys[x] == key;
      } else {
        var n :| n in s.present[0] && n < |s.keys| && s.keys[n] == k;
        assert s'.keys[n] == k;
      }
    }
    forall k | k in KeySet(s') ensures k in KeySet(s) + {key} {
      var n :| n in s'.present[0] && n < |s'.keys| && s'.keys[n] == k;
      if n != x { assert s.keys[n] == k; }
    }
  }
}
