/** The order in a Robin Hood hash table, on sequences of slots: why a lookup may stop early, and
    what one step of an insertion keeps. */
module RobinHood {

  datatype Slot = Empty | Full(hash: nat, key: string, value: nat)

  type Table = t: seq<Slot> | |t| > 1 witness [Empty, Empty]

  function Next(i: nat, n: nat): nat { if i + 1 == n then 0 else i + 1 }

  function Prev(i: nat, n: nat): int { if i == 0 then n - 1 else i - 1 }

  /** How far slot `i` is behind slot `home`, going round. */
  function Offset(home: nat, i: nat, n: nat): int { if i >= home then i - home else i + n - home }

  /** The slot `d` steps behind slot `i`. */
  function Back(i: nat, d: nat, n: nat): int { if i >= d then i - d else i + n - d }

  function Home(hash: nat, n: nat): (h: nat)
    requires n > 0
    ensures h < n
  {
    hash % n
  }

  /** How far the entry in slot `i` is from the slot its hash asks for. */
  function Distance(t: Table, i: nat): int
    requires i < |t| && t[i].Full?
  {
    Offset(Home(t[i].hash, |t|), i, |t|)
  }

  /** An entry that is not at home follows an entry that is at most one step closer to its own. */
  ghost predicate Ordered(t: Table) {
    forall i :: 0 <= i < |t| && t[i].Full? && Distance(t, i) > 0 ==>
      t[Prev(i, |t|)].Full? && Distance(t, Prev(i, |t|)) >= Distance(t, i) - 1
  }

  ghost predicate DistinctKeys(t: Table) {
    forall i, j :: 0 <= i < j < |t| && t[i].Full? && t[j].Full? ==> t[i].key != t[j].key
  }

  /** The occupied slots, and the entries in them. */
  function Filled(t: seq<Slot>): set<nat> {
    set i: nat | i < |t| && t[i].Full?
  }

  function Entries(t: seq<Slot>): set<Slot> {
    set i: nat | i < |t| && t[i].Full? :: t[i]
  }

  ghost predicate HasKey(t: seq<Slot>, key: string) {
    exists i :: 0 <= i < |t| && t[i].Full? && t[i].key == key
  }

  lemma BackStep(i: nat, d: nat, n: nat)
    requires i < n && d < n
    ensures 0 <= Back(i, d, n) < n && Back(i, 0, n) == i
    ensures d > 0 ==> 0 <= Back(i, d - 1, n) < n && Back(i, d, n) == Prev(Back(i, d - 1, n), n)
  {
  }

  lemma DistanceBound(t: Table, i: nat)
    requires i < |t| && t[i].Full?
    ensures 0 <= Distance(t, i) < |t|
  {
  }

  /** Walking back from an entry towards its home, every slot is occupied, by an entry that is at
      least as far from its own home as the walk still is. */
  lemma {:induction false} Chain(t: Table, i: nat, d: nat)
    requires Ordered(t) && i < |t| && t[i].Full? && d <= Distance(t, i)
    ensures var b := Back(i, d, |t|);
            0 <= b < |t| && t[b].Full? && Distance(t, b) >= Distance(t, i) - d
  {
    hide Back, Prev, Distance;
    DistanceBound(t, i);
    BackStep(i, d, |t|);
    if d > 0 {
      Chain(t, i, d - 1);
      assert Distance(t, Back(i, d - 1, |t|)) > 0;
    }
  }

  /** A lookup that has come `dist` steps from the home of its key without meeting it may stop at
      an empty slot, and at one whose entry is closer to its home than `dist`. */
  lemma EarlyExit(t: Table, hash: nat, key: string, dist: nat, pos: nat)
    requires Ordered(t) && dist < |t| && pos < |t| && Offset(Home(hash, |t|), pos, |t|) == dist
    requires forall i :: 0 <= i < |t| && t[i].Full? && t[i].key == key ==>
               t[i].hash == hash && Offset(Home(hash, |t|), i, |t|) >= dist
    requires t[pos].Full? ==> Distance(t, pos) < dist
    ensures !HasKey(t, key)
  {
    if i :| 0 <= i < |t| && t[i].Full? && t[i].key == key {
      assert Back(i, Distance(t, i) - dist, |t|) == pos;
      Chain(t, i, Distance(t, i) - dist);
      assert false;
    }
  }

  // ----- Insertion -----

  /** An entry on its way to a slot: the slots from its home to `pos` are occupied, the last of
      them by an entry at least as far from home. */
  ghost predicate Carried(t: Table, c: Slot, pos: nat, dist: nat) {
    && c.Full? && pos < |t| && dist < |t| && Offset(Home(c.hash, |t|), pos, |t|) == dist
    && !HasKey(t, c.key)
    && (dist > 0 ==> t[Prev(pos, |t|)].Full? && Distance(t, Prev(pos, |t|)) >= dist - 1)
  }

  /** The entry may be put into `pos` if that slot is empty or holds one that is closer to home. */
  lemma PutOrdered(t: Table, c: Slot, pos: nat, dist: nat)
    requires Ordered(t) && Carried(t, c, pos, dist)
    requires t[pos].Full? ==> Distance(t, pos) < dist
    ensures Ordered(t[pos := c])
  {
    var t' := t[pos := c];
    forall i | 0 <= i < |t'| && t'[i].Full? && Distance(t', i) > 0
      ensures t'[Prev(i, |t'|)].Full? && Distance(t', Prev(i, |t'|)) >= Distance(t', i) - 1
    {
      if i != pos { assert t'[i] == t[i]; }
    }
  }

  lemma PutDistinct(t: Table, c: Slot, pos: nat)
    requires DistinctKeys(t) && c.Full? && pos < |t| && !HasKey(t, c.key)
    ensures DistinctKeys(t[pos := c])
    ensures t[pos].Full? ==> !HasKey(t[pos := c], t[pos].key)
  {
  }

  lemma PutEntries(t: Table, c: Slot, pos: nat)
    requires DistinctKeys(t) && c.Full? && pos < |t| && !HasKey(t, c.key)
    ensures var t' := t[pos := c];
            && Filled(t') == Filled(t) + {pos}
            && Entries(t) + {c} == Entries(t') + (if t[pos].Full? then {t[pos]} else {})
  {
    var t' := t[pos := c];
    assert t'[pos] in Entries(t');
    forall x | x in Entries(t) ensures x in Entries(t') || x == t[pos] {
      var i: nat :| i < |t| && t[i].Full? && t[i] == x;
      assert t'[i] == if i == pos then c else x;
    }
    forall x | x in Entries(t') ensures x in Entries(t) || x == c {
      var i: nat :| i < |t'| && t'[i].Full? && t'[i] == x;
      assert i != pos ==> t[i] == x;
    }
  }

  /** The entry that gives way is carried on from the next slot. */
  lemma Displaced(t: Table, c: Slot, pos: nat, dist: nat)
    requires Ordered(t) && DistinctKeys(t) && Carried(t, c, pos, dist) && t[pos].Full? && Distance(t, pos) < dist
    requires exists e :: 0 <= e < |t| && t[e] == Empty
    ensures Carried(t[pos := c], t[pos], Next(pos, |t|), Distance(t, pos) + 1)
  {
    var t' := t[pos := c];
    PutDistinct(t, c, pos);
    assert Prev(Next(pos, |t|), |t|) == pos && Distance(t', pos) == dist;
  }

  /** An entry that finds one at least as far from home moves on. */
  lemma MovesOn(t: Table, c: Slot, pos: nat, dist: nat)
    requires Ordered(t) && Carried(t, c, pos, dist) && t[pos].Full? && Distance(t, pos) >= dist
    requires exists e :: 0 <= e < |t| && t[e] == Empty
    ensures Carried(t, c, Next(pos, |t|), dist + 1)
  {
    assert Prev(Next(pos, |t|), |t|) == pos;
    if dist + 1 == |t| { NoRoom(t, pos); assert false; }
  }

  /** An entry as far from home as possible has only occupied slots around it. */
  lemma NoRoom(t: Table, i: nat)
    requires Ordered(t) && i < |t| && t[i].Full? && Distance(t, i) == |t| - 1
    ensures forall e :: 0 <= e < |t| ==> t[e].Full?
  {
    forall e: nat | e < |t| ensures t[e].Full? {
      var d := Offset(e, i, |t|);
      Chain(t, i, d);
      assert Back(i, d, |t|) == e;
    }
  }

  // ----- Counting -----

  function Range(n: nat): (r: set<nat>)
    ensures |r| == n && forall i: nat :: i in r <==> i < n
  {
    if n == 0 then {} else Range(n - 1) + {n - 1}
  }

  lemma AllFull(t: Table)
    requires forall e :: 0 <= e < |t| ==> t[e] != Empty
    ensures |Filled(t)| == |t|
  {
    assert Filled(t) == Range(|t|);
  }

  /** With fewer entries than slots there is an empty slot. */
  lemma RoomLeft(t: Table)
    requires |Filled(t)| < |t|
    ensures exists e :: 0 <= e < |t| && t[e] == Empty
  {
    if forall e :: 0 <= e < |t| ==> t[e] != Empty { AllFull(t); }
  }
}
