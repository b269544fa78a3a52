/** Symbol lookup: addresses to symbol names over the modules of a process, by binary search and with a cache. */
module Symbols {
  import opened Options
  import opened Seqs

  const TWO_63: nat := 0x8000_0000_0000_0000
  const TWO_64: nat := 0x1_0000_0000_0000_0000

  type Address = x: nat | x < 0x1_0000_0000_0000_0000

  datatype Symbol = Symbol(name: string, location: Address)

  datatype ModuleType = Exec | So | PerfMap | Vdso | Unknown
  datatype ModuleRange = ModuleRange(start: Address, end: Address, fileOffset: Address)
  datatype Module = Module(ranges: seq<ModuleRange>, kind: ModuleType, soOffset: Address, soAddr: Address, symbols: seq<Symbol>)

  /** Unsigned 64-bit arithmetic. */
  function Wrap(x: int): Address {
    x % TWO_64
  }

  /** The difference of two addresses in signed 64-bit arithmetic. */
  function Difference(a: Address, b: Address): int {
    var d := Wrap(a - b);
    if d >= TWO_63 then d - TWO_64 else d
  }

  /** The sign of the wrapped difference is right as long as the addresses are not too far apart. */
  lemma DifferenceSign(a: Address, b: Address)
    ensures Difference(a, b) == 0 <==> a == b
    ensures a > b ==> (Difference(a, b) > 0 <==> a - b < TWO_63)
    ensures a < b ==> (Difference(a, b) < 0 <==> b - a <= TWO_63)
  {
    if a >= b {
      assert Wrap(a - b) == a - b;
    } else {
      assert Wrap(a - b) == a - b + TWO_64;
    }
  }

  ghost predicate Sorted(symbols: seq<Symbol>) {
    forall i, j | 0 <= i <= j < |symbols| :: symbols[i].location <= symbols[j].location
  }

  /** The halving search from one pair of bounds on: the index it returns, if any. */
  function Search(symbols: seq<Symbol>, offset: Address, start: nat, end: int): Option<nat>
    requires end < |symbols| && (start == 0 || start < |symbols|)
    decreases end - start
  {
    if start < end then
      var mid := start + (end - start) / 2;
      var result := Difference(offset, symbols[mid].location);
      if result < 0 then Search(symbols, offset, start, mid)
      else if result > 0 then Search(symbols, offset, mid + 1, end)
      else Some(mid)
    else if start >= 1 && symbols[start - 1].location < offset < symbols[start].location then Some(start - 1)
    else None
  }

  /** The search in its loop form. */
  method FindAddr(symbols: seq<Symbol>, offset: Address) returns (found: Option<nat>)
    ensures found == Search(symbols, offset, 0, |symbols| - 1)
  {
    var start, end := 0, |symbols| - 1;
    while start < end
      invariant 0 <= start && end < |symbols| && (start == 0 || start < |symbols|)
      invariant Search(symbols, offset, start, end) == Search(symbols, offset, 0, |symbols| - 1)
      decreases end - start
    {
      var mid := start + (end - start) / 2;
      var result := Difference(offset, symbols[mid].location);
      if result < 0 {
        end := mid;
      } else if result > 0 {
        start := mid + 1;
      } else {
        return Some(mid);
      }
    }
    if start >= 1 && symbols[start - 1].location < offset < symbols[start].location {
      return Some(start - 1);
    }
    return None;
  }

  /** The linear-scan answer: a symbol at the address itself, or else the last one below it. */
  ghost predicate IsAnswer(symbols: seq<Symbol>, offset: Address, k: nat) {
    && k < |symbols| && symbols[k].location <= offset
    && forall i | 0 <= i < |symbols| && symbols[i].location <= offset :: symbols[i].location <= symbols[k].location
  }

  /** Whatever the spread of the locations, a symbol that is returned is the right one. */
  lemma {:induction false} SearchSound(symbols: seq<Symbol>, offset: Address, start: nat, end: int)
    requires Sorted(symbols) && end < |symbols| && (start == 0 || start < |symbols|)
    ensures var found := Search(symbols, offset, start, end);
      found.Some? ==> IsAnswer(symbols, offset, found.value)
    decreases end - start
  {
    hide Difference;
    if start < end {
      var mid := start + (end - start) / 2;
      DifferenceSign(offset, symbols[mid].location);
      SearchSound(symbols, offset, start, mid);
      SearchSound(symbols, offset, mid + 1, end);
    }
  }

  /** Locations close enough to each other, in these bounds, for every step to go the right way. */
  ghost predicate Near(symbols: seq<Symbol>, offset: Address, start: nat, end: int) {
    forall i | 0 <= start <= i < end < |symbols| ::
      && (offset > symbols[i].location ==> offset - symbols[i].location < TWO_63)
      && (offset < symbols[i].location ==> symbols[i].location - offset <= TWO_63)
  }

  /** A search whose steps all go the right way finds every address between the bounds' locations. */
  lemma {:induction false} SearchFinds(symbols: seq<Symbol>, offset: Address, start: nat, end: int)
    requires Sorted(symbols) && start <= end < |symbols| && Near(symbols, offset, start, end)
    requires start == 0 ==> symbols[0].location <= offset
    requires start > 0 ==> symbols[start - 1].location < offset
    requires offset < symbols[end].location
    ensures Search(symbols, offset, start, end).Some?
    decreases end - start
  {
    hide Difference;
    if start < end {
      var mid := start + (end - start) / 2;
      DifferenceSign(offset, symbols[mid].location);
      if offset < symbols[mid].location {
        SearchFinds(symbols, offset, start, mid);
      } else if offset > symbols[mid].location {
        SearchFinds(symbols, offset, mid + 1, end);
      }
    }
  }

  /** The condition under which the first step is right for every address between the first and last location. */
  ghost predicate Balanced(symbols: seq<Symbol>)
    requires symbols != []
  {
    var middle := symbols[(|symbols| - 1) / 2].location;
    middle - symbols[0].location <= TWO_63 && symbols[|symbols| - 1].location - middle <= TWO_63
  }

  ghost predicate InRange(symbols: seq<Symbol>, offset: Address) {
    symbols != [] && symbols[0].location <= offset < symbols[|symbols| - 1].location
  }

  /** Every address from the first location up to the last is found if and only if the middle location is within
      2^63 of both ends. */
  lemma FindsAllIff(symbols: seq<Symbol>)
    requires Sorted(symbols) && symbols != []
    ensures Balanced(symbols) <==> forall a: Address | InRange(symbols, a) :: Search(symbols, a, 0, |symbols| - 1).Some?
  {
    if Balanced(symbols) {
      forall a: Address | InRange(symbols, a) ensures Search(symbols, a, 0, |symbols| - 1).Some? {
        BalancedFinds(symbols, a);
      }
    } else {
      var a := UnbalancedLoses(symbols);
    }
  }

  lemma BalancedFinds(symbols: seq<Symbol>, a: Address)
    requires Sorted(symbols) && symbols != [] && Balanced(symbols) && InRange(symbols, a)
    ensures Search(symbols, a, 0, |symbols| - 1).Some?
  {
    hide Difference;
    var end := |symbols| - 1;
    var mid := end / 2;
    var middle := symbols[mid].location;
    DifferenceSign(a, middle);
    if a < middle {
      assert Near(symbols, a, 0, mid);
      SearchFinds(symbols, a, 0, mid);
    } else if a > middle {
      assert Near(symbols, a, mid + 1, end);
      SearchFinds(symbols, a, mid + 1, end);
    }
  }

  lemma UnbalancedLoses(symbols: seq<Symbol>) returns (a: Address)
    requires Sorted(symbols) && symbols != [] && !Balanced(symbols)
    ensures InRange(symbols, a) && Search(symbols, a, 0, |symbols| - 1).None?
  {
    hide Difference;
    var end := |symbols| - 1;
    var mid := end / 2;
    var middle := symbols[mid].location;
    if middle - symbols[0].location > TWO_63 {
      a := symbols[0].location;
      DifferenceSign(a, middle);
      LostAbove(symbols, a, mid + 1, end);
    } else {
      a := symbols[end].location - 1;
      DifferenceSign(a, middle);
      LostBelow(symbols, a, 0, mid);
    }
  }

  /** A search that has gone above its address does not come back. */
  lemma {:induction false} LostAbove(symbols: seq<Symbol>, a: Address, start: nat, end: int)
    requires Sorted(symbols) && 0 < start < |symbols| && end < |symbols| && a < symbols[start - 1].location
    ensures Search(symbols, a, start, end).None?
    decreases end - start
  {
    hide Difference;
    if start < end {
      var mid := start + (end - start) / 2;
      DifferenceSign(a, symbols[mid].location);
      LostAbove(symbols, a, start, mid);
      LostAbove(symbols, a, mid + 1, end);
    }
  }

  /** Nor does one that has gone below it. */
  lemma {:induction false} LostBelow(symbols: seq<Symbol>, a: Address, start: nat, end: int)
    requires Sorted(symbols) && start <= end < |symbols| && symbols[end].location < a
    ensures Search(symbols, a, start, end).None?
    decreases end - start
  {
    hide Difference;
    if start < end {
      var mid := start + (end - start) / 2;
      DifferenceSign(a, symbols[mid].location);
      LostBelow(symbols, a, start, mid);
      LostBelow(symbols, a, mid + 1, end);
    }
  }

  /** Outside [first, last) nothing is found, but for an address that is the location of the last two symbols. */
  lemma OutOfRange(symbols: seq<Symbol>, a: Address)
    requires Sorted(symbols) && !InRange(symbols, a) && Search(symbols, a, 0, |symbols| - 1).Some?
    ensures |symbols| >= 2 && symbols[|symbols| - 2].location == a == symbols[|symbols| - 1].location
  {
    SearchSound(symbols, a, 0, |symbols| - 1);
    NotLast(symbols, a, 0, |symbols| - 1);
  }

  /** The last symbol is never returned. */
  lemma {:induction false} NotLast(symbols: seq<Symbol>, a: Address, start: nat, end: int)
    requires end < |symbols| && (start == 0 || start < |symbols|)
    ensures var found := Search(symbols, a, start, end);
      found.Some? ==> found.value < |symbols| - 1 && (symbols[found.value].location == a || a < symbols[found.value + 1].location)
    decreases end - start
  {
    hide Difference;
    if start < end {
      var mid := start + (end - start) / 2;
      DifferenceSign(a, symbols[mid].location);
      NotLast(symbols, a, start, mid);
      NotLast(symbols, a, mid + 1, end);
    }
  }

  /** With distinct locations the search is the linear scan over [first, last). */
  lemma SearchIsScan(symbols: seq<Symbol>, a: Address)
    requires symbols != [] && Balanced(symbols)
    requires forall i, j | 0 <= i < j < |symbols| :: symbols[i].location < symbols[j].location
    ensures var found := Search(symbols, a, 0, |symbols| - 1);
      && (found.Some? <==> InRange(symbols, a))
      && (found.Some? ==> IsAnswer(symbols, a, found.value))
  {
    hide Search, Balanced;
    SearchSound(symbols, a, 0, |symbols| - 1);
    if InRange(symbols, a) {
      BalancedFinds(symbols, a);
    } else if Search(symbols, a, 0, |symbols| - 1).Some? {
      OutOfRange(symbols, a);
    }
  }

  /** A table with low locations in its lower half: addresses behind the high ones are not found. */
  lemma HighAddressLost()
    ensures var symbols := [Symbol("a", 0), Symbol("b", 0x1000), Symbol("c", 0xffff_ffff_8100_0000), Symbol("d", 0xffff_ffff_8300_0000)];
      Sorted(symbols) && InRange(symbols, 0xffff_ffff_8100_0010) && Search(symbols, 0xffff_ffff_8100_0010, 0, 3).None?
  {
    var symbols := [Symbol("a", 0), Symbol("b", 0x1000), Symbol("c", 0xffff_ffff_8100_0000), Symbol("d", 0xffff_ffff_8300_0000)];
    DifferenceSign(0xffff_ffff_8100_0010, 0x1000);
    LostBelow(symbols, 0xffff_ffff_8100_0010, 0, 1);
  }

  /** The position of an address in the file of a module, from the first range that holds it. */
  function Position(m: Module, ranges: seq<ModuleRange>, addr: Address): Option<Address> {
    if ranges == [] then None
    else if ranges[0].start <= addr < ranges[0].end then
      if m.kind.So? || m.kind.Vdso? then
        Some(Wrap(Wrap(addr - ranges[0].start + ranges[0].fileOffset) + Wrap(m.soAddr - m.soOffset)))
      else Some(addr)
    else Position(m, ranges[1..], addr)
  }

  /** Where the loader puts location `v` of a shared object whose file is mapped at `r`. */
  function Loaded(m: Module, r: ModuleRange, v: Address): Address {
    Wrap(r.start + (v - m.soAddr + m.soOffset) - r.fileOffset)
  }

  /** Round trip: a location loaded in any of the ranges is taken back to itself, unless an earlier range holds the
      address as well. */
  lemma {:induction false} LoadedIsFound(m: Module, ranges: seq<ModuleRange>, i: nat, v: Address)
    requires (m.kind.So? || m.kind.Vdso?) && i < |ranges|
    requires ranges[i].start <= Loaded(m, ranges[i], v) < ranges[i].end
    requires forall j | 0 <= j < i :: !(ranges[j].start <= Loaded(m, ranges[i], v) < ranges[j].end)
    ensures Position(m, ranges, Loaded(m, ranges[i], v)) == Some(v)
  {
    hide Wrap;
    if i == 0 {
      WrapsCancel(ranges[0].start, v, m.soAddr, m.soOffset, ranges[0].fileOffset);
    } else {
      LoadedIsFound(m, ranges[1..], i - 1, v);
    }
  }

  lemma WrapsCancel(start: Address, v: Address, soAddr: Address, soOffset: Address, fileOffset: Address)
    ensures Wrap(Wrap(Wrap(start + (v - soAddr + soOffset) - fileOffset) - start + fileOffset) + Wrap(soAddr - soOffset)) == v
  {
    hide Wrap;
    var there := Wrap(start + (v - soAddr + soOffset) - fileOffset);
    var k1 := Laps(start + (v - soAddr + soOffset) - fileOffset);
    var position: int := Wrap(there - start + fileOffset);
    var k2 := Laps(there - start + fileOffset);
    var shift: int := Wrap(soAddr - soOffset);
    var k3 := Laps(soAddr - soOffset);
    WrapIs(position + shift, v, -k1 - k2 - k3);
  }

  /** Wrapping a number takes off a multiple of 2^64. */
  lemma Laps(x: int) returns (k: int)
    ensures Wrap(x) == x - k * TWO_64
  {
    k := x / TWO_64;
  }

  lemma WrapIs(x: int, v: Address, k: int)
    requires x == v + k * TWO_64
    ensures Wrap(x) == v
  {
  }

  method Contains(m: Module, addr: Address) returns (offset: Option<Address>)
    ensures offset == Position(m, m.ranges, addr)
    ensures offset.Some? <==> exists r :: r in m.ranges && r.start <= addr < r.end
  {
    for i := 0 to |m.ranges|
      invariant Position(m, m.ranges[i..], addr) == Position(m, m.ranges, addr)
      invariant forall j | 0 <= j < i :: !(m.ranges[j].start <= addr < m.ranges[j].end)
    {
      var r := m.ranges[i];
      assert m.ranges[i..][1..] == m.ranges[i + 1..];
      if r.start <= addr < r.end {
        if m.kind.So? || m.kind.Vdso? {
          var offset := Wrap(addr - r.start + r.fileOffset);
          return Some(Wrap(offset + Wrap(m.soAddr - m.soOffset)));
        }
        return Some(addr);
      }
    }
    return None;
  }

  /** What a module says about an address. */
  function Resolve(m: Module, addr: Address): Option<Symbol> {
    match Position(m, m.ranges, addr)
    case None => None
    case Some(offset) =>
      match Search(m.symbols, offset, 0, |m.symbols| - 1)
      case None => None
      case Some(k) => SearchBound(m.symbols, offset, 0, |m.symbols| - 1); Some(m.symbols[k])
  }

  lemma {:induction false} SearchBound(symbols: seq<Symbol>, a: Address, start: nat, end: int)
    requires end < |symbols| && (start == 0 || start < |symbols|)
    ensures var found := Search(symbols, a, start, end); found.Some? ==> found.value < |symbols|
  {
    NotLast(symbols, a, start, end);
  }

  /** The first module that resolves the address names it. */
  function NameIn(modules: seq<Module>, addr: Address, process: string -> string): string {
    if modules == [] then ""
    else match Resolve(modules[0], addr)
         case Some(symbol) => process(symbol.name)
         case None => NameIn(modules[1..], addr, process)
  }

  /** The module has a range that holds the address, and a symbol is found at the position there. */
  ghost predicate Finds(m: Module, addr: Address) {
    var position := Position(m, m.ranges, addr);
    position.Some? && Search(m.symbols, position.value, 0, |m.symbols| - 1).Some?
  }

  ghost function Found(m: Module, addr: Address): Symbol
    requires Finds(m, addr)
  {
    var position := Position(m, m.ranges, addr).value;
    SearchBound(m.symbols, position, 0, |m.symbols| - 1);
    m.symbols[Search(m.symbols, position, 0, |m.symbols| - 1).value]
  }

  /** The address is in some range of the module, and in a sorted table the symbol found is the one with the greatest location
      at or below the position. */
  lemma FoundIsGreatest(m: Module, addr: Address)
    requires Finds(m, addr) && Sorted(m.symbols)
    ensures exists r :: r in m.ranges && r.start <= addr < r.end
    ensures var position := Position(m, m.ranges, addr).value;
      && Found(m, addr) in m.symbols && Found(m, addr).location <= position
      && forall x | x in m.symbols && x.location <= position :: x.location <= Found(m, addr).location
  {
    hide Search;
    SearchSound(m.symbols, Position(m, m.ranges, addr).value, 0, |m.symbols| - 1);
    SearchBound(m.symbols, Position(m, m.ranges, addr).value, 0, |m.symbols| - 1);
    PositionIff(m, m.ranges, addr);
  }

  /** In a sorted, balanced table every position from the first location up to the last is found. */
  lemma BalancedIsFound(m: Module, addr: Address)
    requires Sorted(m.symbols) && m.symbols != [] && Balanced(m.symbols)
    requires Position(m, m.ranges, addr).Some? && InRange(m.symbols, Position(m, m.ranges, addr).value)
    ensures Finds(m, addr)
  {
    hide Search;
    BalancedFinds(m.symbols, Position(m, m.ranges, addr).value);
  }

  /** There is a position exactly for an address in some range; in a module that is not relocated it is the address. */
  lemma {:induction false} PositionIff(m: Module, ranges: seq<ModuleRange>, addr: Address)
    ensures Position(m, ranges, addr).Some? <==> exists r :: r in ranges && r.start <= addr < r.end
    ensures Position(m, ranges, addr).Some? && !m.kind.So? && !m.kind.Vdso? ==> Position(m, ranges, addr).value == addr
  {
    if ranges != [] {
      PositionIff(m, ranges[1..], addr);
      assert forall r :: r in ranges <==> r == ranges[0] || r in ranges[1..];
    }
  }

  /** The name an address gets: the processed name of the symbol of the first module that finds one, or none if no module
      does. */
  ghost predicate IsName(modules: seq<Module>, addr: Address, process: string -> string, name: string) {
    || (exists i :: 0 <= i < |modules| && Finds(modules[i], addr)
          && (forall j | 0 <= j < i :: !Finds(modules[j], addr)) && name == process(Found(modules[i], addr).name))
    || (name == "" && forall i | 0 <= i < |modules| :: !Finds(modules[i], addr))
  }

  lemma {:induction false} NameInIs(modules: seq<Module>, addr: Address, process: string -> string)
    ensures IsName(modules, addr, process, NameIn(modules, addr, process))
  {
    hide Search, Position;
    if modules != [] {
      if Finds(modules[0], addr) {
        FoundResolves(modules[0], addr);
      } else {
        NameInIs(modules[1..], addr, process);
        var name := NameIn(modules[1..], addr, process);
        if i :| 0 <= i < |modules| - 1 && Finds(modules[1..][i], addr) && (forall j | 0 <= j < i :: !Finds(modules[1..][j], addr))
                && name == process(Found(modules[1..][i], addr).name) {
          assert Finds(modules[i + 1], addr) && forall j | 0 <= j < i + 1 :: j == 0 || modules[j] == modules[1..][j - 1];
        } else {
          assert forall j | 0 <= j < |modules| :: j == 0 || modules[j] == modules[1..][j - 1];
        }
      }
    }
  }

  lemma FoundResolves(m: Module, addr: Address)
    requires Finds(m, addr)
    ensures Resolve(m, addr) == Some(Found(m, addr))
  {
  }

  /** One name for each address asked for, in order, with the default for an empty one. */
  ghost predicate AreNames(names: seq<string>, asked: seq<Address>, modules: seq<Module>, default: string, process: string -> string) {
    |names| == |asked| && forall i | 0 <= i < |asked| :: IsNameOr(modules, asked[i], process, default, names[i])
  }

  ghost predicate IsNameOr(modules: seq<Module>, addr: Address, process: string -> string, default: string, shown: string) {
    exists name :: IsName(modules, addr, process, name) && shown == if name == "" then default else name
  }

  /** Asked for are exactly the addresses that are not zero. */
  lemma {:induction false} NamedAre(modules: seq<Module>, addresses: seq<Address>, default: string, process: string -> string)
    returns (asked: seq<Address>)
    ensures IsSelection(asked, addresses, (a: Address) => a != 0)
    ensures AreNames(Named(modules, addresses, default, process), asked, modules, default, process)
  {
    hide IsNameOr, NameIn, IsName, IsSelection, AreNames;
    if addresses == [] {
      asked := [];
      SelectionOfNone((a: Address) => a != 0);
      NoNames(modules, default, process);
    } else {
      var n := |addresses| - 1;
      var a := addresses[n];
      var name := NameIn(modules, a, process);
      asked := NamedAre(modules, addresses[..n], default, process);
      SelectionMore(asked, addresses[..n], a, (a: Address) => a != 0);
      assert addresses[..n] + [a] == addresses;
      if a != 0 {
        NameInIs(modules, a, process);
        ShownIs(modules, a, process, default, name);
        NamesMore(Named(modules, addresses[..n], default, process), asked, modules, default, process, a, if name == "" then default else name);
        asked := asked + [a];
      } else {
        RightUnit(Named(modules, addresses[..n], default, process));
      }
    }
  }

  lemma NoNames(modules: seq<Module>, default: string, process: string -> string)
    ensures AreNames([], [], modules, default, process)
  {
  }

  lemma NamesMore(names: seq<string>, asked: seq<Address>, modules: seq<Module>, default: string, process: string -> string, a: Address, shown: string)
    requires AreNames(names, asked, modules, default, process) && IsNameOr(modules, a, process, default, shown)
    ensures AreNames(names + [shown], asked + [a], modules, default, process)
  {
    hide IsNameOr;
  }

  lemma ShownIs(modules: seq<Module>, addr: Address, process: string -> string, default: string, name: string)
    requires IsName(modules, addr, process, name)
    ensures IsNameOr(modules, addr, process, default, if name == "" then default else name)
  {
  }

  /** Symbols of a process, with the addresses named so far. */
  class Info {
    const modules: seq<Module>
    const process: string -> string
    var cache: map<Address, string>

    ghost predicate Valid()
      reads this
    {
      forall a | a in cache :: cache[a] == NameIn(modules, a, process)
    }

    constructor (modules: seq<Module>, process: string -> string)
      ensures Valid() && this.modules == modules && this.process == process
    {
      this.modules, this.process, cache := modules, process, map[];
    }

    /** A cached lookup answers as an uncached one, after any lookups before it. */
    method FindSymbolName(address: Address) returns (name: string)
      requires Valid()
      modifies `cache
      ensures Valid() && name == NameIn(modules, address, process)
      ensures IsName(modules, address, process, name)
    {
      hide IsName;
      NameInIs(modules, address, process);
      if address in cache && cache[address] != "" {
        return cache[address];
      }
      for i := 0 to |modules|
        invariant cache == old(cache)
        invariant NameIn(modules[i..], address, process) == NameIn(modules, address, process)
      {
        var m := modules[i];
        assert modules[i..][1..] == modules[i + 1..];
        var offset := Contains(m, address);
        if offset.Some? {
          var k := FindAddr(m.symbols, offset.value);
          if k.Some? {
            SearchBound(m.symbols, offset.value, 0, |m.symbols| - 1);
            name := process(m.symbols[k.value].name);
            cache := cache[address := name];
            return;
          }
        }
      }
      return "";
    }

    /** Names for a stack of addresses; zero addresses are left out, unknown ones get the default. */
    method FindSymbols(addresses: seq<Address>, default: string) returns (names: seq<string>)
      requires Valid()
      modifies `cache
      ensures Valid() && names == Named(modules, addresses, default, process)
      ensures exists asked ::
        IsSelection(asked, addresses, (a: Address) => a != 0) && AreNames(names, asked, modules, default, process)
    {
      hide IsName, AreNames, IsSelection;
      names := [];
      for i := 0 to |addresses|
        invariant Valid() && names == Named(modules, addresses[..i], default, process)
      {
        assert addresses[..i + 1][..i] == addresses[..i];
        if addresses[i] > 0 {
          var s := FindSymbolName(addresses[i]);
          if s == "" {
            s := default;
          }
          names := names + [s];
        }
      }
      assert addresses[..|addresses|] == addresses;
      ghost var asked := NamedAre(modules, addresses, default, process);
    }
  }

  function Named(modules: seq<Module>, addresses: seq<Address>, default: string, process: string -> string): seq<string> {
    if addresses == [] then []
    else
      var a := addresses[|addresses| - 1];
      var name := NameIn(modules, a, process);
      Named(modules, addresses[..|addresses| - 1], default, process)
      + if a == 0 then [] else [if name == "" then default else name]
  }
}
