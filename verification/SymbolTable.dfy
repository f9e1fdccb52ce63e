/** The symbol table: a Robin Hood hash table in two arrays that grows by doubling, with the
    32-bit arithmetic of its sizes. It interns: the n-th new name becomes symbol n. */
module SymbolTable {
  import opened Wrappers
  import opened Division
  import opened RobinHood

  // ----- 32-bit arithmetic -----

  const TWO32 := 0x1_0000_0000

  /** Bitwise `a & b`. */
  function And(a: nat, b: nat): nat {
    if a == 0 || b == 0 then 0 else 2 * And(a / 2, b / 2) + if a % 2 == 1 && b % 2 == 1 then 1 else 0
  }

  predicate PowerOfTwo(n: nat) {
    n == 1 || (n > 1 && n % 2 == 0 && PowerOfTwo(n / 2))
  }

  lemma AndOdd(a: nat, m: nat)
    requires m > 0
    ensures And(a, 2 * m - 1) == 2 * And(a / 2, m - 1) + a % 2
  {
    assert (2 * m - 1) / 2 == m - 1 && (2 * m - 1) % 2 == 1;
  }

  lemma AndZero(a: nat)
    ensures And(a, 0) == 0
  {
  }

  lemma Half(n: nat)
    requires PowerOfTwo(n) && n != 1
    ensures n == 2 * (n / 2) && 0 < n / 2 && PowerOfTwo(n / 2)
  {
  }

  /** Masking with one less than a power of two is taking the remainder. */
  lemma {:induction false} MaskIsRemainder(a: nat, n: nat)
    requires n > 0 && PowerOfTwo(n)
    ensures And(a, n - 1) == a % n
    decreases n
  {
    hide And, PowerOfTwo;
    if n == 1 {
      AndZero(a);
    } else {
      Half(n);
      MaskIsRemainder(a / 2, n / 2);
      AndOdd(a, n / 2);
      HalfRemainder(a, n / 2);
    }
  }

  lemma HalfRemainder(a: nat, m: nat)
    requires m > 0
    ensures a % (2 * m) == 2 * (a / 2 % m) + a % 2
  {
    var q, r := a / 2 / m, a / 2 % m;
    assert a == 2 * (q * m + r) + a % 2;
    assert a == q * (2 * m) + (2 * r + a % 2);
    QuotientAndRemainder(a, 2 * m, q, 2 * r + a % 2);
  }

  // ----- Sizes -----

  /** 90% of the capacity, as computed in 32 bits. */
  function Threshold(capacity: nat): nat {
    capacity * 90 % TWO32 / 100
  }

  /** The largest number of symbols a table can hold. The product in the threshold overflows from
      a capacity of 2^26 on, which makes the table double early; the next symbol would double a
      capacity of 2^31. */
  const LIMIT := 34896612

  function Fit(capacity: nat, n: nat): nat
    decreases 0x200_0000 - capacity
  {
    if n < capacity * 90 / 100 || capacity >= 0x200_0000 || capacity == 0 then capacity else Fit(2 * capacity, n)
  }

  /** The capacity of a table that holds `n` symbols. */
  function CapacityFor(n: nat): nat {
    if n < 30198988 then Fit(256, n)
    else if n == 30198988 then 0x400_0000
    else if n < 34896609 then 0x800_0000
    else if n == 34896609 then 0x1000_0000
    else if n == 34896610 then 0x2000_0000
    else if n == 34896611 then 0x4000_0000
    else 0x8000_0000
  }

  lemma {:induction false} FitSteps(capacity: nat, n: nat)
    requires 0 < capacity <= 0x200_0000 && PowerOfTwo(capacity) && n + 1 < 30198988
    ensures var c := Fit(capacity, n);
            && capacity <= c <= 0x200_0000 && PowerOfTwo(c) && n < c * 90 / 100
            && Fit(capacity, n + 1) == if n + 1 >= c * 90 / 100 then 2 * c else c
    decreases 0x200_0000 - capacity
  {
    if capacity == 0x200_0000 {
      assert 0x200_0000 * 90 / 100 == 30198988;
    } else {
      LargePowers();
      SmallerPower(capacity, 0x200_0000);
      if n >= capacity * 90 / 100 { FitSteps(2 * capacity, n); }
    }
  }

  /** Two different powers of two are at least a factor of two apart. */
  lemma {:induction false} SmallerPower(a: nat, b: nat)
    requires PowerOfTwo(a) && PowerOfTwo(b) && a < b
    ensures 2 * a <= b && PowerOfTwo(2 * a)
  {
    if a > 1 { SmallerPower(a / 2, b / 2); }
  }

  /** The table doubles exactly when the number of symbols reaches the threshold of its capacity,
      and always has room. */
  lemma CapacitySteps(n: nat)
    requires n < LIMIT
    ensures var c := CapacityFor(n);
            CapacityFor(n + 1) == if n + 1 >= Threshold(c) then 2 * c else c
    ensures 256 <= CapacityFor(n) <= 0x4000_0000 && PowerOfTwo(CapacityFor(n)) && n + 1 < CapacityFor(n + 1)
  {
    hide PowerOfTwo, Fit;
    LargePowers();
    if n + 1 < 30198988 {
      FitSteps(256, n);
      SmallThreshold(Fit(256, n));
    } else if n + 1 == 30198988 {
      FullFit(n);
      SmallThreshold(0x200_0000);
    } else {
      LargeThresholds();
    }
  }

  lemma SmallThreshold(c: nat)
    requires c <= 0x200_0000
    ensures Threshold(c) == c * 90 / 100
  {
  }

  lemma LargeThresholds()
    ensures Threshold(0x400_0000) == 17448304 && Threshold(0x800_0000) == 34896609
    ensures Threshold(0x1000_0000) == 26843545 && Threshold(0x2000_0000) == 10737418
    ensures Threshold(0x4000_0000) == 21474836 && Threshold(0x8000_0000) == 0
  {
  }

  lemma Doubles(n: nat)
    requires PowerOfTwo(n)
    ensures PowerOfTwo(2 * n)
  {
  }

  lemma LargePowers()
    ensures PowerOfTwo(256) && PowerOfTwo(0x200_0000) && PowerOfTwo(0x400_0000) && PowerOfTwo(0x800_0000)
    ensures PowerOfTwo(0x1000_0000) && PowerOfTwo(0x2000_0000) && PowerOfTwo(0x4000_0000) && PowerOfTwo(0x8000_0000)
  {
    assert PowerOfTwo(16);
    hide PowerOfTwo;
    Doubles(16);
    Doubles(32);
    Doubles(64);
    Doubles(128);
    Doubles(256);
    Doubles(512);
    Doubles(1024);
    Doubles(2048);
    Doubles(4096);
    Doubles(8192);
    Doubles(0x4000);
    Doubles(0x8000);
    Doubles(0x1_0000);
    Doubles(0x2_0000);
    Doubles(0x4_0000);
    Doubles(0x8_0000);
    Doubles(0x10_0000);
    Doubles(0x20_0000);
    Doubles(0x40_0000);
    Doubles(0x80_0000);
    Doubles(0x100_0000);
    Doubles(0x200_0000);
    Doubles(0x400_0000);
    Doubles(0x800_0000);
    Doubles(0x1000_0000);
    Doubles(0x2000_0000);
    Doubles(0x4000_0000);
  }

  lemma FullFit(n: nat)
    requires n == 30198987
    ensures Fit(256, n) == 0x200_0000
  {
    assert Fit(0x200_0000, n) == 0x200_0000;
    assert Fit(0x100_0000, n) == 0x200_0000;
    assert Fit(0x80_0000, n) == 0x200_0000;
    assert Fit(0x40_0000, n) == 0x200_0000;
    assert Fit(0x20_0000, n) == 0x200_0000;
    assert Fit(0x10_0000, n) == 0x200_0000;
    assert Fit(0x8_0000, n) == 0x200_0000;
    assert Fit(0x4_0000, n) == 0x200_0000;
    assert Fit(0x2_0000, n) == 0x200_0000;
    assert Fit(0x1_0000, n) == 0x200_0000;
    assert Fit(0x8000, n) == 0x200_0000;
    assert Fit(0x4000, n) == 0x200_0000;
    assert Fit(0x2000, n) == 0x200_0000;
    assert Fit(0x1000, n) == 0x200_0000;
    assert Fit(0x800, n) == 0x200_0000;
    assert Fit(0x400, n) == 0x200_0000;
    assert Fit(0x200, n) == 0x200_0000;
  }

  // ----- The two arrays as one table -----

  datatype SymbolEntry = SymbolEntry(key: string, value: nat)

  function SlotOf(hash: nat, entry: SymbolEntry): Slot {
    if hash == 0 then Empty else Full(hash, entry.key, entry.value)
  }

  function Slots(hashes: seq<nat>, entries: seq<SymbolEntry>): (t: seq<Slot>)
    requires |hashes| == |entries|
    ensures |t| == |hashes| && forall i :: 0 <= i < |t| ==> t[i] == SlotOf(hashes[i], entries[i])
  {
    seq(|hashes|, i requires 0 <= i < |hashes| => SlotOf(hashes[i], entries[i]))
  }

  /** The entries of a table in which the n-th name has symbol n. */
  function Interned(hash: string -> nat, names: seq<string>): set<Slot> {
    set n: nat | n < |names| :: Full(HashString(hash, names[n]), names[n], n + 1)
  }

  function HashString(hash: string -> nat, key: string): (h: nat)
    ensures 0 < h < 0x8000_0000
  {
    TopBit();
    MaskIsRemainder(hash(key), 0x8000_0000);
    var h := And(hash(key), 0x7FFF_FFFF);
    if h == 0 then 1 else h
  }

  lemma TopBit()
    ensures PowerOfTwo(0x8000_0000)
  {
    LargePowers();
  }

  ghost predicate Distinct(names: seq<string>) {
    forall i, j :: 0 <= i < j < |names| ==> names[i] != names[j]
  }

  /** The names in order of their symbols after a call for `key`, and after a run of calls. */
  function After(names: seq<string>, key: string): seq<string> {
    if key in names || |names| >= LIMIT then names else names + [key]
  }

  function AfterAll(names: seq<string>, keys: seq<string>): seq<string>
    decreases keys
  {
    if keys == [] then names else AfterAll(After(names, keys[0]), keys[1..])
  }

  /** Symbols never change: whatever is asked for later, the names so far keep their places. */
  lemma {:induction false} SymbolsAreStable(names: seq<string>, keys: seq<string>)
    ensures names <= AfterAll(names, keys)
    decreases keys
  {
    if keys != [] { SymbolsAreStable(After(names, keys[0]), keys[1..]); }
  }

  /** From an empty table, 1 to the number of names are the symbols of exactly the keys asked for,
      one for each, unless the table has reached its limit. */
  lemma {:induction false} SymbolsAreNames(names: seq<string>, keys: seq<string>)
    requires Distinct(names)
    ensures var all := AfterAll(names, keys);
            && Distinct(all)
            && (forall key :: key in all ==> key in names || key in keys)
            && (|all| < LIMIT ==> forall key :: key in names || key in keys ==> key in all)
    decreases keys
  {
    if keys != [] {
      SymbolsAreNames(After(names, keys[0]), keys[1..]);
      SymbolsAreStable(After(names, keys[0]), keys[1..]);
      assert keys == [keys[0]] + keys[1..];
    }
  }

  class SymbolTable {
    const hash32: string -> nat
    var hashes: array<nat>
    var entries: array<SymbolEntry>
    var capacity: nat
    var itemCount: nat
    var resizeThreshold: nat
    var mask: nat
    ghost var names: seq<string>

    /** What every operation on the arrays relies on. No slot is ever marked as deleted. */
    ghost predicate Allocated()
      reads this, hashes
    {
      && hashes.Length == capacity && entries.Length == capacity && PowerOfTwo(capacity)
      && 256 <= capacity <= 0x8000_0000 && mask == capacity - 1 && resizeThreshold == Threshold(capacity)
      && forall i :: 0 <= i < capacity ==> hashes[i] < 0x8000_0000
    }

    ghost function View(): (t: Table)
      reads this, hashes, entries
      requires Allocated()
      ensures |t| == capacity
    {
      Slots(hashes[..], entries[..])
    }

    ghost predicate Valid()
      reads this, hashes, entries
    {
      && Allocated() && Ordered(View()) && DistinctKeys(View()) && Distinct(names)
      && itemCount == |names| <= LIMIT && capacity == CapacityFor(|names|)
      && Entries(View()) == Interned(hash32, names) && |Filled(View())| == |names|
    }

    constructor (hash32: string -> nat)
      ensures Valid() && names == [] && this.hash32 == hash32
      ensures fresh(hashes) && fresh(entries)
    {
      hide Ordered, DistinctKeys, Entries, Filled, PowerOfTwo, And;
      this.hash32 := hash32;
      capacity := 256;
      itemCount := 0;
      names := [];
      hashes := new nat[256](_ => 0);
      entries := new SymbolEntry[256](_ => SymbolEntry("", 0));
      resizeThreshold := Threshold(256);
      mask := 255;
      new;
      LargePowers();
      NothingYet(View(), View());
      NoEntries(View());
      assert Fit(256, 0) == 256;
    }

    function DesiredPosition(hash: nat): nat
      reads this
    {
      And(hash, mask)
    }

    function ProbeDistance(hash: nat, slotIndex: nat): nat
      reads this
    {
      And((slotIndex + capacity - DesiredPosition(hash)) % TWO32, mask)
    }

    lemma PositionIsHome(hash: nat)
      requires Allocated()
      ensures DesiredPosition(hash) == Home(hash, capacity)
    {
      MaskIsRemainder(hash, capacity);
    }

    /** The distance computed with wrapping words is the number of steps round the table. */
    lemma ProbeIsOffset(hash: nat, slotIndex: nat)
      requires Allocated() && slotIndex < capacity
      ensures ProbeDistance(hash, slotIndex) == Offset(Home(hash, capacity), slotIndex, capacity)
    {
      hide And, PowerOfTwo;
      PositionIsHome(hash);
      var d := slotIndex + capacity - Home(hash, capacity);
      MaskIsRemainder(d, capacity);
      QuotientAndRemainder(d, capacity, if d < capacity then 0 else 1, if d < capacity then d else d - capacity);
    }

    lemma NextIsMasked(pos: nat)
      requires Allocated() && pos < capacity
      ensures And(pos + 1, mask) == Next(pos, capacity)
    {
      hide And, PowerOfTwo;
      MaskIsRemainder(pos + 1, capacity);
      if pos + 1 == capacity { QuotientAndRemainder(pos + 1, capacity, 1, 0); }
        else { QuotientAndRemainder(pos + 1, capacity, 0, pos + 1); }
    }

    method SetElement(pos: nat, hash: nat, key: string, value: nat)
      requires Allocated() && pos < capacity && 0 < hash < 0x8000_0000
      modifies hashes, entries
      ensures Allocated() && View() == old(View())[pos := Full(hash, key, value)]
    {
      hashes[pos] := hash;
      entries[pos] := SymbolEntry(key, value);
    }

    /** Adds one entry, moving others that are closer to home; nothing is lost. */
    method InsertHelper(hash: nat, key: string, value: nat)
      requires Allocated() && 0 < hash < 0x8000_0000
      requires Ordered(View()) && DistinctKeys(View()) && !HasKey(View(), key)
      requires exists e :: 0 <= e < capacity && View()[e] == Empty
      modifies hashes, entries
      ensures Allocated() && Ordered(View()) && DistinctKeys(View())
      ensures Entries(View()) == old(Entries(View())) + {Full(hash, key, value)}
      ensures |Filled(View())| == old(|Filled(View())|) + 1
    {
      hide Ordered, DistinctKeys, Carried, Entries, Filled, And, PowerOfTwo, Offset, Next, HasKey, Home;
      PositionIsHome(hash);
      var hash, key, value := hash, key, value;
      var pos: nat, dist: nat := DesiredPosition(hash), 0;
      ghost var e :| 0 <= e < capacity && View()[e] == Empty;
      ghost var before, item := View(), Full(hash, key, value);
      CarriedFromHome(before, item);
      while hashes[pos] != 0
        invariant Allocated() && pos < capacity && 0 < hash < 0x8000_0000
        invariant Ordered(View()) && DistinctKeys(View()) && Carried(View(), Full(hash, key, value), pos, dist)
        invariant View()[e] == Empty
        invariant Entries(View()) + {Full(hash, key, value)} == Entries(before) + {item}
        invariant Filled(View()) == Filled(before)
        decreases Offset(pos, e, capacity)
      {
        ghost var t, c := View(), Full(hash, key, value);
        var existingHash := hashes[pos];
        var existingProbeDist := ProbeDistance(existingHash, pos);
        ProbeIsOffset(existingHash, pos);
        if existingProbeDist < dist {
          PutStep(t, c, pos, dist);
          var displaced := entries[pos];
          SetElement(pos, hash, key, value);
          key, value, hash, dist := displaced.key, displaced.value, existingHash, existingProbeDist;
        } else {
          MovesOn(t, c, pos, dist);
        }
        NextIsMasked(pos);
        Closer(pos, e, capacity);
        pos := And(pos + 1, mask);
        dist := dist + 1;
      }
      PutLast(View(), Full(hash, key, value), pos, dist);
      SetElement(pos, hash, key, value);
    }

    method Allocate(capacity: nat)
      requires 256 <= capacity <= 0x8000_0000 && PowerOfTwo(capacity)
      modifies this
      ensures Allocated() && this.capacity == capacity && fresh(hashes) && fresh(entries)
      ensures forall i :: 0 <= i < capacity ==> View()[i] == Empty
      ensures itemCount == old(itemCount) && names == old(names)
    {
      hide PowerOfTwo, And;
      this.capacity := capacity;
      entries := new SymbolEntry[capacity](_ => SymbolEntry("", 0));
      hashes := new nat[capacity](_ => 0);
      resizeThreshold := Threshold(capacity);
      mask := capacity - 1;
    }

    /** Moves every entry into a table of twice the size. */
    method Grow()
      requires Allocated() && capacity < 0x8000_0000 && DistinctKeys(View())
      modifies this
      ensures Allocated() && capacity == 2 * old(capacity) && fresh(hashes) && fresh(entries)
      ensures Ordered(View()) && DistinctKeys(View())
      ensures Entries(View()) == old(Entries(View())) && |Filled(View())| == |old(Filled(View()))|
      ensures itemCount == old(itemCount) && names == old(names)
    {
      hide Ordered, DistinctKeys, Entries, Filled, And, PowerOfTwo, HasKey, Threshold, Distinct;
      ghost var before := View();
      var oldHashes, oldEntries, oldCapacity := hashes, entries, capacity;
      GrownSize(capacity);
      Allocate(2 * capacity);
      NothingYet(before, View());
      var i: nat := 0;
      while i < oldCapacity
        invariant i <= oldCapacity && fresh(hashes) && fresh(entries) && Allocated()
        invariant capacity == 2 * oldCapacity && itemCount == old(itemCount) && names == old(names)
        invariant Ordered(View()) && DistinctKeys(View())
        invariant Entries(View()) == Entries(before[..i]) && |Filled(View())| == |Filled(before[..i])|
      {
        var hash := oldHashes[i];
        assert before[i] == SlotOf(hash, oldEntries[i]);
        OneMore(before, i);
        if hash != 0 {
          MissingYet(before, i, View());
          InsertHelper(hash, oldEntries[i].key, oldEntries[i].value);
        }
        i := i + 1;
      }
      assert before[..i] == before;
    }

    /** The symbol of a name, or 0 for one that has none. */
    method Find(key: string) returns (symbol: nat)
      requires Valid()
      ensures symbol == 0 <==> key !in names
      ensures symbol != 0 ==> symbol <= |names| && names[symbol - 1] == key
    {
      hide Ordered, DistinctKeys, Entries, Filled, And, PowerOfTwo, Offset, HasKey, Home, Threshold, CapacityFor,
        Distinct, Interned, HashString;
      var hash := HashString(hash32, key);
      PositionIsHome(hash);
      var pos: nat, dist: nat := DesiredPosition(hash), 0;
      ghost var t := View();
      RoomFor(this);
      SoughtFromHome(this, key);
      while true
        invariant pos < capacity && dist < capacity && Sought(t, hash, key, pos, dist)
        decreases capacity - dist
      {
        var existingHash := hashes[pos];
        if existingHash == 0 {
          EarlyExit(t, hash, key, dist, pos);
          Unknown(this, key);
          return 0;
        }
        ProbeIsOffset(existingHash, pos);
        if dist > ProbeDistance(existingHash, pos) {
          EarlyExit(t, hash, key, dist, pos);
          Unknown(this, key);
          return 0;
        }
        if hash == existingHash && key == entries[pos].key {
          Known(this, pos);
          return entries[pos].value;
        }
        NextIsMasked(pos);
        SoughtFurther(t, hash, key, pos, dist);
        pos := And(pos + 1, mask);
        dist := dist + 1;
      }
    }

    /** Interns a name: an old one keeps its symbol, a new one gets the next. There is a symbol for
        every new name up to the limit; the one after that would need a table of 2^32 slots. */
    method FindOrCreateSymbol(key: string) returns (symbol: nat, ok: bool)
      requires Valid()
      modifies this, hashes, entries
      ensures Valid() && (fresh(hashes) || hashes == old(hashes)) && (fresh(entries) || entries == old(entries))
      ensures ok <==> key in old(names) || |old(names)| < LIMIT
      ensures names == After(old(names), key)
      ensures ok ==> 0 < symbol <= |names| && names[symbol - 1] == key
    {
      hide Ordered, DistinctKeys, Entries, Filled, And, PowerOfTwo, HasKey, Threshold, CapacityFor,
        Distinct, Interned, HashString;
      symbol := Find(key);
      if symbol != 0 { return symbol, true; }
      if itemCount == LIMIT { return 0, false; }
      NotThere(this, key);
      CapacitySteps(itemCount);
      itemCount := itemCount + 1;
      symbol := itemCount;
      if itemCount >= resizeThreshold { Grow(); }
      SameKeys(old(View()), View(), key);
      RoomLeft(View());
      InsertHelper(HashString(hash32, key), key, symbol);
      InternOne(hash32, names, key);
      names := names + [key];
      ok := true;
    }

    /** The name of a symbol, by going through the whole table. */
    method FindSymbolKey(symbol: nat) returns (key: Option<string>)
      requires Valid()
      ensures key == if 0 < symbol <= |names| then Some(names[symbol - 1]) else None
    {
      hide Ordered, DistinctKeys, Entries, Filled, And, PowerOfTwo, HasKey, Threshold, CapacityFor,
        Distinct, Interned, HashString;
      var i: nat := 0;
      while i < capacity
        invariant i <= capacity
        invariant forall j :: 0 <= j < i && View()[j].Full? ==> View()[j].value != symbol
      {
        if hashes[i] != 0 && entries[i].value == symbol {
          Known(this, i);
          return Some(entries[i].key);
        }
        i := i + 1;
      }
      if 0 < symbol <= |names| {
        StoredAt(this, symbol - 1);
        assert false;
      }
      return None;
    }
  }

  lemma GrownSize(c: nat)
    requires 256 <= c < 0x8000_0000 && PowerOfTwo(c)
    ensures 2 * c <= 0x8000_0000 && PowerOfTwo(2 * c)
  {
    TopBit();
    SmallerPower(c, 0x8000_0000);
  }

  lemma NothingYet(before: Table, t: Table)
    requires forall i :: 0 <= i < |t| ==> t[i] == Empty
    ensures Ordered(t) && DistinctKeys(t) && Entries(t) == Entries(before[..0]) &&
            Filled(t) == Filled(before[..0]) == {}
  {
    assert Filled(t) == {};
    assert Entries(t) == {};
  }

  lemma NoEntries(t: Table)
    ensures Entries(t[..0]) == {}
  {
    assert t[..0] == [];
  }

  lemma OneMore(t: Table, i: nat)
    requires i < |t|
    ensures Entries(t[..i + 1]) == Entries(t[..i]) + if t[i].Full? then {t[i]} else {}
    ensures |Filled(t[..i + 1])| == |Filled(t[..i])| + if t[i].Full? then 1 else 0
  {
    assert Filled(t[..i + 1]) == Filled(t[..i]) + if t[i].Full? then {i} else {};
    forall x | x in Entries(t[..i + 1]) ensures x in Entries(t[..i]) || (x == t[i] && t[i].Full?) {
      var j: nat :| j < i + 1 && t[..i + 1][j].Full? && t[..i + 1][j] == x;
      assert j < i ==> t[..i][j] == x;
    }
    forall x | x in Entries(t[..i]) ensures x in Entries(t[..i + 1]) {
      var j: nat :| j < i && t[..i][j].Full? && t[..i][j] == x;
      assert t[..i + 1][j] == x;
    }
    assert t[..i + 1][i] == t[i];
  }

  lemma {:induction false} FewFilled(t: Table, i: nat)
    requires i <= |t|
    ensures |Filled(t[..i])| <= i
  {
    if i == 0 {
      assert Filled(t[..0]) == {};
    } else {
      FewFilled(t, i - 1);
      OneMore(t, i - 1);
    }
  }

  /** While growing, the next entry is not in the new table yet, and there is room. */
  lemma MissingYet(before: Table, i: nat, t: Table)
    requires DistinctKeys(before) && i < |before| < |t| && before[i].Full?
    requires Entries(t) == Entries(before[..i]) && |Filled(t)| == |Filled(before[..i])|
    ensures !HasKey(t, before[i].key) && exists e :: 0 <= e < |t| && t[e] == Empty
  {
    FewFilled(before, i);
    RoomLeft(t);
    hide Entries;
    forall j: nat | j < |t| && t[j].Full? ensures t[j].key != before[i].key {
      InEntries(t, j);
      var k := FromPrefix(before, i, t[j]);
    }
  }

  lemma InEntries(t: Table, i: nat)
    requires i < |t| && t[i].Full?
    ensures t[i] in Entries(t)
  {
  }

  lemma FromPrefix(t: Table, i: nat, x: Slot) returns (k: nat)
    requires i <= |t| && x in Entries(t[..i])
    ensures k < i && x.Full? && t[k] == x
  {
    k :| k < i && t[..i][k].Full? && t[..i][k] == x;
  }

  // ----- What the contents of a table say about its names -----

  lemma Stored(table: SymbolTable, i: nat) returns (n: nat)
    requires table.Valid() && i < table.capacity && table.View()[i].Full?
    ensures n < |table.names|
    ensures table.View()[i] == Full(HashString(table.hash32, table.names[n]), table.names[n], n + 1)
  {
    assert table.View()[i] in Entries(table.View());
    n :| n < |table.names| && Full(HashString(table.hash32, table.names[n]), table.names[n], n + 1) == table.View()[i];
  }

  lemma Known(table: SymbolTable, i: nat)
    requires table.Valid() && i < table.capacity && table.View()[i].Full?
    ensures var s := table.View()[i];
            && 0 < s.value <= |table.names| && table.names[s.value - 1] == s.key
            && s.hash == HashString(table.hash32, s.key)
  {
    var n := Stored(table, i);
  }

  lemma StoredAt(table: SymbolTable, n: nat)
    requires table.Valid() && n < |table.names|
    ensures exists i ::
              0 <= i < table.capacity && table.View()[i].Full? && table.View()[i].value == n + 1 &&
              table.View()[i].key == table.names[n]
  {
    var x := Full(HashString(table.hash32, table.names[n]), table.names[n], n + 1);
    assert x in Interned(table.hash32, table.names);
    var i: nat :| i < |table.View()| && table.View()[i].Full? && table.View()[i] == x;
  }

  lemma Unknown(table: SymbolTable, key: string)
    requires table.Valid() && !HasKey(table.View(), key)
    ensures key !in table.names
  {
    if key in table.names {
      var n: nat :| n < |table.names| && table.names[n] == key;
      StoredAt(table, n);
    }
  }

  lemma NotThere(table: SymbolTable, key: string)
    requires table.Valid() && key !in table.names
    ensures !HasKey(table.View(), key)
  {
    if i: nat :| i < table.capacity && table.View()[i].Full? && table.View()[i].key == key {
      Known(table, i);
    }
  }

  lemma RoomFor(table: SymbolTable)
    requires table.Valid()
    ensures exists e :: 0 <= e < table.capacity && table.View()[e] == Empty
  {
    hide CapacityFor, Filled, Ordered, DistinctKeys, Distinct, Entries, Interned, PowerOfTwo, Threshold;
    AlwaysRoom(|table.names|);
    RoomLeft(table.View());
  }

  lemma AlwaysRoom(n: nat)
    requires n <= LIMIT
    ensures n < CapacityFor(n)
  {
    if n > 0 { CapacitySteps(n - 1); }
  }

  /** A lookup under way: no slot it has passed holds the key. */
  ghost predicate Sought(t: Table, hash: nat, key: string, pos: nat, dist: nat) {
    && Offset(Home(hash, |t|), pos, |t|) == dist
    && forall i :: 0 <= i < |t| && t[i].Full? && t[i].key == key ==>
         t[i].hash == hash && Offset(Home(hash, |t|), i, |t|) >= dist
  }

  lemma SoughtFromHome(table: SymbolTable, key: string)
    requires table.Valid()
    ensures var hash := HashString(table.hash32, key);
            Sought(table.View(), hash, key, Home(hash, table.capacity), 0)
  {
    hide HashString, Entries, Interned, Filled, Ordered, DistinctKeys, Distinct, CapacityFor, And, PowerOfTwo;
    forall i | 0 <= i < table.capacity && table.View()[i].Full? && table.View()[i].key == key
      ensures table.View()[i].hash == HashString(table.hash32, key)
    {
      Known(table, i);
    }
  }

  lemma SoughtFurther(t: Table, hash: nat, key: string, pos: nat, dist: nat)
    requires Ordered(t) && pos < |t| && dist < |t| && Sought(t, hash, key, pos, dist)
    requires t[pos].Full? && Distance(t, pos) >= dist && !(hash == t[pos].hash && key == t[pos].key)
    requires exists e :: 0 <= e < |t| && t[e] == Empty
    ensures dist + 1 < |t| && Sought(t, hash, key, Next(pos, |t|), dist + 1)
  {
    if dist + 1 == |t| {
      NoRoom(t, pos);
      assert false;
    }
  }

  lemma SameKeys(t: Table, t': Table, key: string)
    requires Entries(t) == Entries(t') && !HasKey(t, key)
    ensures !HasKey(t', key)
  {
    hide Entries;
    assert t[..|t|] == t;
    forall i: nat | i < |t'| && t'[i].Full? ensures t'[i].key != key {
      InEntries(t', i);
      var j := FromPrefix(t, |t|, t'[i]);
    }
  }

  lemma InternOne(hash: string -> nat, names: seq<string>, key: string)
    requires Distinct(names) && key !in names
    ensures Distinct(names + [key])
    ensures Interned(hash, names + [key]) ==
              Interned(hash, names) + {Full(HashString(hash, key), key, |names| + 1)}
  {
    hide HashString;
    var names' := names + [key];
    assert names'[|names|] == key;
    forall x | x in Interned(hash, names') ensures x in Interned(hash, names) ||
      x == Full(HashString(hash, key), key, |names| + 1) {
      var n: nat :| n < |names'| && Full(HashString(hash, names'[n]), names'[n], n + 1) == x;
      assert n < |names| ==> names'[n] == names[n];
    }
    forall x | x in Interned(hash, names) ensures x in Interned(hash, names') {
      var n: nat :| n < |names| && Full(HashString(hash, names[n]), names[n], n + 1) == x;
      assert names'[n] == names[n];
    }
  }

  lemma CarriedFromHome(t: Table, c: Slot)
    requires c.Full? && !HasKey(t, c.key)
    ensures Carried(t, c, Home(c.hash, |t|), 0)
  {
  }

  lemma Closer(pos: nat, e: nat, n: nat)
    requires pos < n && e < n
    ensures 0 <= Offset(pos, e, n)
    ensures pos != e ==> Offset(Next(pos, n), e, n) < Offset(pos, e, n)
  {
  }

  /** One exchange keeps the order and the entries, counting the one in hand. */
  lemma PutStep(t: Table, c: Slot, pos: nat, dist: nat)
    requires Ordered(t) && DistinctKeys(t) && Carried(t, c, pos, dist) && t[pos].Full? && Distance(t, pos) < dist
    requires exists e :: 0 <= e < |t| && t[e] == Empty
    ensures var t' := t[pos := c];
            && Ordered(t') && DistinctKeys(t') && Carried(t', t[pos], Next(pos, |t|), Distance(t, pos) + 1)
            && Entries(t') + {t[pos]} == Entries(t) + {c} && Filled(t') == Filled(t)
  {
    PutOrdered(t, c, pos, dist);
    PutDistinct(t, c, pos);
    PutEntries(t, c, pos);
    Displaced(t, c, pos, dist);
    assert pos in Filled(t);
  }

  lemma PutLast(t: Table, c: Slot, pos: nat, dist: nat)
    requires Ordered(t) && DistinctKeys(t) && Carried(t, c, pos, dist) && t[pos] == Empty
    ensures var t' := t[pos := c];
            && Ordered(t') && DistinctKeys(t')
            && Entries(t') == Entries(t) + {c} && |Filled(t')| == |Filled(t)| + 1
  {
    PutOrdered(t, c, pos, dist);
    PutDistinct(t, c, pos);
    PutEntries(t, c, pos);
    assert pos !in Filled(t);
  }
}
