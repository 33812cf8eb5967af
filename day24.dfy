/** Day 24: crossed wires.

    A circuit is a set of initial wire values and a set of gates, each
    combining two input wires with AND, OR or XOR onto one output wire;
    gates are keyed by their output wire. Part 1 evaluates the wires whose
    names start with "z" and reads them as a binary number, z00 least
    significant. Part 2 checks, bit by bit, that the gates around
    x_i, y_i and z_i have the wiring of a ripple-carry full adder and
    reports, in sorted order, the wires where they do not. */
module Day24 {
  import opened Common
  import opened Bits

  datatype Gate = Gate(op: string, x: string, y: string, out: string)

  /** As the input is read: every gate is stored under its output wire. */
  predicate WellFormed(gates: map<string, Gate>)
  {
    forall k :: k in gates ==> gates[k].out == k
  }

  // ---------------------------------------------------------------------
  // Sorted names

  /** Python's string order: code point by code point, a proper prefix
      first. */
  predicate Below(a: string, b: string)
    decreases |a|
  {
    if a == [] then b != []
    else b != [] && (a[0] < b[0] || (a[0] == b[0] && Below(a[1..], b[1..])))
  }

  lemma {:induction false} BelowIrreflexive(a: string)
    ensures !Below(a, a)
    decreases |a|
  {
    if a != [] {
      BelowIrreflexive(a[1..]);
    }
  }

  lemma {:induction false} BelowTransitive(a: string, b: string, c: string)
    requires Below(a, b) && Below(b, c)
    ensures Below(a, c)
    decreases |a|
  {
    if a != [] && a[0] == b[0] && b[0] == c[0] {
      BelowTransitive(a[1..], b[1..], c[1..]);
    }
  }

  lemma {:induction false} BelowTotal(a: string, b: string)
    requires a != b
    ensures Below(a, b) || Below(b, a)
    decreases |a|
  {
    if a != [] && b != [] && a[0] == b[0] {
      assert a == [a[0]] + a[1..] && b == [b[0]] + b[1..];
      BelowTotal(a[1..], b[1..]);
    }
  }

  lemma BelowAsymmetric(a: string, b: string)
    requires Below(a, b)
    ensures !Below(b, a) && a != b
  {
    BelowIrreflexive(a);
    if Below(b, a) {
      BelowTransitive(a, b, a);
    }
  }

  predicate StartsWith(s: string, prefix: string)
  {
    |prefix| <= |s| && s[..|prefix|] == prefix
  }

  /** The names that start with the prefix. */
  function Prefixed(names: set<string>, prefix: string): (r: set<string>)
    ensures forall n :: n in r <==> n in names && StartsWith(n, prefix)
  {
    set n | n in names && StartsWith(n, prefix)
  }

  predicate Increasing(r: seq<string>)
  {
    forall i, j :: 0 <= i < j < |r| ==> Below(r[i], r[j])
  }

  ghost predicate IsLeast(m: string, names: set<string>)
  {
    m in names && forall n :: n in names && n != m ==> Below(m, n)
  }

  lemma LeastUnique(m: string, m': string, names: set<string>)
    requires IsLeast(m, names) && IsLeast(m', names)
    ensures m == m'
  {
    if m != m' {
      BelowAsymmetric(m, m');
    }
  }

  lemma {:induction false} LeastExists(names: set<string>)
    requires names != {}
    ensures exists m :: IsLeast(m, names)
    decreases |names|
  {
    var a :| a in names;
    var rest := names - {a};
    if rest == {} {
      assert names == {a};
      assert IsLeast(a, names);
    } else {
      LeastExists(rest);
      var m :| IsLeast(m, rest);
      if Below(a, m) {
        forall n | n in names && n != a
          ensures Below(a, n)
        {
          if n != m {
            BelowTransitive(a, m, n);
          }
        }
        assert IsLeast(a, names);
      } else {
        BelowTotal(a, m);
        assert IsLeast(m, names);
      }
    }
  }

  /** `sorted(names)`, the names in increasing order. */
  ghost function SortedList(names: set<string>): seq<string>
    decreases |names|
  {
    if names == {} then []
    else
      LeastExists(names);
      var m :| IsLeast(m, names);
      [m] + SortedList(names - {m})
  }

  lemma SortedListFirst(names: set<string>, m: string)
    requires IsLeast(m, names)
    ensures SortedList(names) == [m] + SortedList(names - {m})
  {
    forall m' | IsLeast(m', names)
      ensures m' == m
    {
      LeastUnique(m, m', names);
    }
  }

  /** The sorted list holds every name once, in increasing order. */
  lemma {:induction false} SortedListSpec(names: set<string>)
    ensures |SortedList(names)| == |names|
    ensures forall n :: n in SortedList(names) <==> n in names
    ensures Increasing(SortedList(names))
    decreases |names|
  {
    if names != {} {
      LeastExists(names);
      var m :| IsLeast(m, names);
      SortedListFirst(names, m);
      SortedListSpec(names - {m});
      var r := SortedList(names);
      forall i, j | 0 <= i < j < |r|
        ensures Below(r[i], r[j])
      {
        if i == 0 {
          assert r[j] in names - {m};
        }
      }
    }
  }

  /** The least of a non-empty set of names, by a scan. */
  method Least(names: set<string>) returns (m: string)
    requires names != {}
    ensures IsLeast(m, names)
  {
    m :| m in names;
    var todo := names - {m};
    while todo != {}
      invariant todo <= names && m in names && m !in todo
      invariant forall n :: n in names && n !in todo && n != m ==> Below(m, n)
      decreases |todo|
    {
      var n :| n in todo;
      if Below(n, m) {
        forall n' | n' in names && n' !in todo - {n} && n' != n
          ensures Below(n, n')
        {
          if n' != m {
            BelowTransitive(n, m, n');
          }
        }
        m := n;
      } else {
        BelowTotal(n, m);
      }
      todo := todo - {n};
    }
  }

  /** Python's `sorted` on a set of names: repeatedly take the least. */
  method SortNames(names: set<string>) returns (r: seq<string>)
    ensures r == SortedList(names)
  {
    r := [];
    var rest := names;
    while rest != {}
      invariant r + SortedList(rest) == SortedList(names)
      decreases |rest|
    {
      var m := Least(rest);
      SortedListFirst(rest, m);
      r := r + [m];
      rest := rest - {m};
    }
  }

  /** `gate_names`: the sorted gate outputs with the prefix. */
  method GateNames(gates: map<string, Gate>, prefix: string) returns (r: seq<string>)
    ensures r == SortedList(Prefixed(gates.Keys, prefix))
  {
    r := SortNames(Prefixed(gates.Keys, prefix));
  }

  /** `wire_names`: the sorted initial wires with the prefix. */
  method WireNames(wires: map<string, bool>, prefix: string) returns (r: seq<string>)
    ensures r == SortedList(Prefixed(wires.Keys, prefix))
  {
    r := SortNames(Prefixed(wires.Keys, prefix));
  }

  // ---------------------------------------------------------------------
  // Evaluation

  /** A wire's value; Fault where the source raises (an unknown wire, or
      an operator other than AND, OR and XOR, whose None result cannot be
      combined or printed), OutOfFuel where the recursion went deeper than
      the fuel, as on a cyclic circuit. */
  datatype Signal = Val(bit: bool) | Fault | OutOfFuel

  /** `eval_gate`: a stored wire value, or the gate's operator applied to
      its two evaluated inputs, the first input first. */
  function Eval(name: string, wires: map<string, bool>, gates: map<string, Gate>, fuel: nat): Signal
    decreases fuel
  {
    if fuel == 0 then OutOfFuel
    else if name in wires then Val(wires[name])
    else if name !in gates then Fault
    else
      var g := gates[name];
      var x := Eval(g.x, wires, gates, fuel - 1);
      if !x.Val? then x
      else
        var y := Eval(g.y, wires, gates, fuel - 1);
        if !y.Val? then y
        else if g.op == "AND" then Val(x.bit && y.bit)
        else if g.op == "OR" then Val(x.bit || y.bit)
        else if g.op == "XOR" then Val(x.bit != y.bit)
        else Fault
  }

  /** Once the fuel suffices, more fuel gives the same answer. */
  lemma {:induction false} EvalFuel(name: string, wires: map<string, bool>, gates: map<string, Gate>,
                                    fuel: nat, more: nat)
    requires !Eval(name, wires, gates, fuel).OutOfFuel? && fuel <= more
    ensures Eval(name, wires, gates, more) == Eval(name, wires, gates, fuel)
    decreases fuel
  {
    if name !in wires && name in gates {
      var g := gates[name];
      EvalFuel(g.x, wires, gates, fuel - 1, more - 1);
      if Eval(g.x, wires, gates, fuel - 1).Val? {
        EvalFuel(g.y, wires, gates, fuel - 1, more - 1);
      }
    }
  }

  /** An initial wire evaluates to its stored value, even when a gate
      drives the same name. */
  lemma EvalWire(name: string, wires: map<string, bool>, gates: map<string, Gate>, fuel: nat)
    requires name in wires && fuel > 0
    ensures Eval(name, wires, gates, fuel) == Val(wires[name])
  {
  }

  /** A gate's value is its operator applied to its inputs' values. */
  lemma EvalGate(name: string, wires: map<string, bool>, gates: map<string, Gate>, fuel: nat)
    requires name !in wires && name in gates && Eval(name, wires, gates, fuel).Val?
    ensures var g := gates[name];
            var x := Eval(g.x, wires, gates, fuel - 1);
            var y := Eval(g.y, wires, gates, fuel - 1);
            x.Val? && y.Val? &&
            (g.op == "AND" || g.op == "OR" || g.op == "XOR") &&
            Eval(name, wires, gates, fuel).bit ==
              if g.op == "AND" then x.bit && y.bit
              else if g.op == "OR" then x.bit || y.bit
              else x.bit != y.bit
  {
  }

  // ---------------------------------------------------------------------
  // Part 1: reading the z wires as a number

  /** The bits as a number, the first one least significant. */
  function LittleEndian(bits: seq<bool>): nat
  {
    if bits == [] then 0
    else (if bits[0] then 1 else 0) + 2 * LittleEndian(bits[1..])
  }

  /** Bit i of the number is entry i, and the number fits the bits. */
  lemma {:induction false} LittleEndianBits(bits: seq<bool>, i: nat)
    requires i < |bits|
    ensures Bit(LittleEndian(bits), i) <==> bits[i]
    ensures LittleEndian(bits) < Pow2(|bits|)
  {
    var rest := LittleEndian(bits[1..]);
    var n := LittleEndian(bits);
    if i > 0 {
      LittleEndianBits(bits[1..], i - 1);
      Pow2Halves(n, i - 1);
      assert n / 2 == rest;
    } else if |bits| > 1 {
      LittleEndianBits(bits[1..], 0);
    }
  }

  /** `"".join(str(z) for z in reversed(values))`. */
  function BinaryText(bits: seq<bool>): (r: string)
    ensures |r| == |bits|
    ensures forall i :: 0 <= i < |r| ==> r[i] == (if bits[|bits| - 1 - i] then '1' else '0')
  {
    if bits == [] then []
    else BinaryText(bits[1..]) + [if bits[0] then '1' else '0']
  }

  /** `int(text, 2)` on a text of '0's and '1's; Python raises on the
      empty text. */
  function ParseBinary(text: string): Option<nat>
  {
    if text == [] then None else Some(BinaryValue(text))
  }

  function BinaryValue(text: string): nat
  {
    if text == [] then 0
    else 2 * BinaryValue(text[..|text| - 1]) + (if text[|text| - 1] == '1' then 1 else 0)
  }

  /** Writing the bits most significant first and parsing them back gives
      the little-endian number. */
  lemma {:induction false} BinaryRoundTrip(bits: seq<bool>)
    ensures BinaryValue(BinaryText(bits)) == LittleEndian(bits)
  {
    if bits != [] {
      BinaryRoundTrip(bits[1..]);
      var t := BinaryText(bits);
      assert t[..|t| - 1] == BinaryText(bits[1..]);
    }
  }

  /** The z wires in sorted order. */
  ghost function ZNames(gates: map<string, Gate>): seq<string>
  {
    SortedList(Prefixed(gates.Keys, "z"))
  }

  ghost predicate AllValues(names: seq<string>, wires: map<string, bool>, gates: map<string, Gate>,
                            fuel: nat, values: seq<bool>)
  {
    |values| == |names| &&
    forall i :: 0 <= i < |names| ==> Eval(names[i], wires, gates, fuel) == Val(values[i])
  }

  /** `part1`: evaluates the z wires in sorted order and reads them as a
      binary number with z00 least significant. None where the source
      raises: no z wire, or a z wire that cannot be evaluated. */
  method Part1(wires: map<string, bool>, gates: map<string, Gate>, fuel: nat) returns (r: Option<nat>)
    ensures r.Some? <==> |ZNames(gates)| > 0 &&
                         forall i :: 0 <= i < |ZNames(gates)| ==> Eval(ZNames(gates)[i], wires, gates, fuel).Val?
    ensures r.Some? ==> r.value < Pow2(|ZNames(gates)|) &&
                        forall i :: 0 <= i < |ZNames(gates)| ==>
                          (Bit(r.value, i) <==> Eval(ZNames(gates)[i], wires, gates, fuel).bit)
  {
    var names := GateNames(gates, "z");
    var values: seq<bool> := [];
    for i := 0 to |names|
      invariant AllValues(names[..i], wires, gates, fuel, values)
    {
      var v := Eval(names[i], wires, gates, fuel);
      if !v.Val? {
        return None;
      }
      values := values + [v.bit];
      assert names[..i + 1] == names[..i] + [names[i]];
    }
    assert names[..|names|] == names;
    var text := BinaryText(values);
    r := ParseBinary(text);
    if r.Some? {
      BinaryRoundTrip(values);
      forall i | 0 <= i < |names|
        ensures Bit(r.value, i) <==> values[i]
        ensures r.value < Pow2(|names|)
      {
        LittleEndianBits(values, i);
      }
    }
  }

  // ---------------------------------------------------------------------
  // Part 2: the full-adder checks

  /** The answer of `get_gate`: no gate, the one gate, or more than one
      (the source's assertion fails). */
  datatype Lookup = NoGate | Found(gate: Gate) | Ambiguous

  predicate Takes(g: Gate, name: string, op: string)
  {
    g.op == op && (g.x == name || g.y == name)
  }

  /** The gates with this operator that take the wire as an input. */
  function Matching(name: string, op: string, gates: map<string, Gate>): (r: set<string>)
    ensures forall k :: k in r <==> k in gates && Takes(gates[k], name, op)
  {
    set k | k in gates && Takes(gates[k], name, op)
  }

  lemma SingletonMember(s: set<string>, a: string, b: string)
    requires |s| == 1 && a in s && b in s
    ensures a == b
  {
    assert |s - {a}| == 0;
    assert b !in s - {a};
  }

  /** What `get_gate` answers, by the number of matching gates. */
  ghost function Sole(name: string, op: string, gates: map<string, Gate>): Lookup
  {
    var m := Matching(name, op, gates);
    if m == {} then NoGate
    else if |m| >= 2 then Ambiguous
    else var k :| k in m; Found(gates[k])
  }

  lemma SoleSingle(name: string, op: string, gates: map<string, Gate>, k: string)
    requires |Matching(name, op, gates)| == 1 && k in Matching(name, op, gates)
    ensures Sole(name, op, gates) == Found(gates[k])
  {
    var m := Matching(name, op, gates);
    var k' :| k' in m && Sole(name, op, gates) == Found(gates[k']);
    SingletonMember(m, k, k');
  }

  lemma SoleCount(name: string, op: string, gates: map<string, Gate>)
    ensures Sole(name, op, gates).NoGate? <==> Matching(name, op, gates) == {}
    ensures Sole(name, op, gates).Ambiguous? <==> |Matching(name, op, gates)| >= 2
  {
  }

  /** A gate found is a gate of the circuit with that operator and input. */
  lemma SoleFound(name: string, op: string, gates: map<string, Gate>)
    requires Sole(name, op, gates).Found?
    ensures exists k :: k in gates && gates[k] == Sole(name, op, gates).gate && Takes(gates[k], name, op)
  {
    var m := Matching(name, op, gates);
    var k :| k in m && Sole(name, op, gates) == Found(gates[k]);
  }

  /** `get_gate`: collects the gates with the operator that take the wire,
      and answers by how many there are. */
  method GetGate(name: string, op: string, gates: map<string, Gate>) returns (r: Lookup)
    ensures r == Sole(name, op, gates)
  {
    hide Sole, Collected, Matching;
    var result: seq<Gate> := [];
    ghost var owners: seq<string> := [];
    var todo := gates.Keys;
    CollectedStart(name, op, gates);
    while todo != {}
      invariant todo <= gates.Keys
      invariant Collected(name, op, gates, todo, result, owners)
      decreases |todo|
    {
      var k :| k in todo;
      CollectedStep(name, op, gates, todo, result, owners, k);
      if Takes(gates[k], name, op) {
        result := result + [gates[k]];
        owners := owners + [k];
      }
      todo := todo - {k};
    }
    CollectedDone(name, op, gates, result, owners);
    SoleCount(name, op, gates);
    if |result| == 0 {
      r := NoGate;
    } else if |result| >= 2 {
      r := Ambiguous;
    } else {
      SoleSingle(name, op, gates, owners[0]);
      r := Found(result[0]);
    }
  }

  /** The loop state of `get_gate` with the keys in todo still to visit:
      one entry per matching gate visited, each with its key. */
  ghost predicate Collected(name: string, op: string, gates: map<string, Gate>, todo: set<string>,
                            result: seq<Gate>, owners: seq<string>)
  {
    var m := Matching(name, op, gates);
    |result| == |owners| == |m - todo| &&
    forall i :: 0 <= i < |owners| ==>
      owners[i] in m && owners[i] !in todo && result[i] == gates[owners[i]]
  }

  lemma CollectedStart(name: string, op: string, gates: map<string, Gate>)
    ensures Collected(name, op, gates, gates.Keys, [], [])
  {
    var m := Matching(name, op, gates);
    assert m - gates.Keys == {};
  }

  lemma CollectedStep(name: string, op: string, gates: map<string, Gate>, todo: set<string>,
                      result: seq<Gate>, owners: seq<string>, k: string)
    requires k in todo && todo <= gates.Keys
    requires Collected(name, op, gates, todo, result, owners)
    ensures Takes(gates[k], name, op) ==>
              Collected(name, op, gates, todo - {k}, result + [gates[k]], owners + [k])
    ensures !Takes(gates[k], name, op) ==> Collected(name, op, gates, todo - {k}, result, owners)
  {
    var m := Matching(name, op, gates);
    if Takes(gates[k], name, op) {
      assert m - (todo - {k}) == (m - todo) + {k};
    } else {
      assert m - (todo - {k}) == m - todo;
    }
  }

  lemma CollectedDone(name: string, op: string, gates: map<string, Gate>,
                      result: seq<Gate>, owners: seq<string>)
    requires Collected(name, op, gates, {}, result, owners)
    ensures |result| == |owners| == |Matching(name, op, gates)|
    ensures forall i :: 0 <= i < |owners| ==>
              owners[i] in Matching(name, op, gates) && result[i] == gates[owners[i]]
  {
    var m := Matching(name, op, gates);
    assert m - {} == m;
  }

  /** The verdict of `check_full_adder`: the wires it flags, or Fails
      where one of its assertions fails or `gates[z]` raises. */
  datatype Checked = Flags(names: set<string>) | Fails

  /** The two input gates of the first half adder, shared by x and y. */
  ghost function SharedGate(x: string, y: string, op: string, gates: map<string, Gate>): Lookup
  {
    var gx := Sole(x, op, gates);
    var gy := Sole(y, op, gates);
    if gx.Ambiguous? || gy.Ambiguous? then Ambiguous
    else if gx == gy && gy.Found? then gx
    else NoGate
  }

  /** `check_full_adder` as a whole. */
  ghost function FullAdder(x: string, y: string, z: string, gates: map<string, Gate>, ignoreCarry: bool): Checked
  {
    var xor1 := SharedGate(x, y, "XOR", gates);
    var and1 := SharedGate(x, y, "AND", gates);
    if !xor1.Found? || !and1.Found? || z !in gates then Fails
    else
      var xor2 := Sole(xor1.gate.out, "XOR", gates);
      var and2 := Sole(xor1.gate.out, "AND", gates);
      var or := Sole(and1.gate.out, "OR", gates);
      if xor2.Ambiguous? || and2.Ambiguous? || or.Ambiguous? then Fails
      else Flags(
        (if gates[z].op != "XOR" then {z} else {}) +
        (if !ignoreCarry && xor2.NoGate? then {xor1.gate.out} else {}) +
        (if xor2.Found? && xor2.gate.out != z then {xor2.gate.out} else {}) +
        (if !ignoreCarry && and2.NoGate? then {xor1.gate.out} else {}) +
        (if !ignoreCarry && or.NoGate? then {and1.gate.out} else {}))
  }

  /** The output z is flagged whenever the gate driving it is not an
      XOR. */
  lemma ZFlaggedUnlessXor(x: string, y: string, z: string, gates: map<string, Gate>, ignoreCarry: bool)
    requires FullAdder(x, y, z, gates, ignoreCarry).Flags?
    ensures z in gates
    ensures gates[z].op != "XOR" ==> z in FullAdder(x, y, z, gates, ignoreCarry).names
  {
  }

  /** For bit 0, which has no carry in, the missing-gate checks add
      nothing: the flags are a subset of those with the checks on, and
      each is z or the output of an XOR gate. */
  lemma IgnoreCarryFlags(x: string, y: string, z: string, gates: map<string, Gate>)
    requires FullAdder(x, y, z, gates, true).Flags?
    ensures FullAdder(x, y, z, gates, false).Flags?
    ensures FullAdder(x, y, z, gates, true).names <= FullAdder(x, y, z, gates, false).names
    ensures forall n :: n in FullAdder(x, y, z, gates, true).names ==>
              n == z || exists k :: k in gates && gates[k].out == n && gates[k].op == "XOR"
  {
    hide Sole, Matching;
    var xor1 := SharedGate(x, y, "XOR", gates);
    var xor2 := Sole(xor1.gate.out, "XOR", gates);
    if xor2.Found? {
      SoleFound(xor1.gate.out, "XOR", gates);
    }
  }

  /** Every flagged name is the output wire of a gate of the circuit. */
  lemma FlagsAreOutputs(x: string, y: string, z: string, gates: map<string, Gate>, ignoreCarry: bool)
    requires WellFormed(gates)
    requires FullAdder(x, y, z, gates, ignoreCarry).Flags?
    ensures FullAdder(x, y, z, gates, ignoreCarry).names <= gates.Keys
  {
    hide Sole, Matching;
    var xor1 := SharedGate(x, y, "XOR", gates);
    var and1 := SharedGate(x, y, "AND", gates);
    SoleFoundOut(x, "XOR", gates);
    SoleFoundOut(x, "AND", gates);
    var xor2 := Sole(xor1.gate.out, "XOR", gates);
    if xor2.Found? {
      SoleFoundOut(xor1.gate.out, "XOR", gates);
    }
  }

  lemma SoleFoundOut(name: string, op: string, gates: map<string, Gate>)
    requires WellFormed(gates)
    ensures Sole(name, op, gates).Found? ==> Sole(name, op, gates).gate.out in gates
  {
    if Sole(name, op, gates).Found? {
      SoleFound(name, op, gates);
    }
  }

  /** A correctly wired full adder is flagged nowhere. */
  lemma CorrectAdderUnflagged(x: string, y: string, z: string, gates: map<string, Gate>, ignoreCarry: bool)
    requires SharedGate(x, y, "XOR", gates).Found? && SharedGate(x, y, "AND", gates).Found?
    requires z in gates && gates[z].op == "XOR"
    requires var xor1 := SharedGate(x, y, "XOR", gates).gate;
             Sole(xor1.out, "XOR", gates).Found? && Sole(xor1.out, "XOR", gates).gate.out == z &&
             Sole(xor1.out, "AND", gates).Found?
    requires Sole(SharedGate(x, y, "AND", gates).gate.out, "OR", gates).Found?
    ensures FullAdder(x, y, z, gates, ignoreCarry) == Flags({})
  {
  }

  /** `get_gate` for both inputs of the first half adder, with the
      chained assertion `a == b != None`. */
  method GetShared(x: string, y: string, op: string, gates: map<string, Gate>) returns (r: Lookup)
    ensures r == SharedGate(x, y, op, gates)
  {
    hide Sole, Matching;
    var gx := GetGate(x, op, gates);
    var gy := GetGate(y, op, gates);
    if gx.Ambiguous? || gy.Ambiguous? {
      return Ambiguous;
    }
    if gx == gy && gy.Found? {
      return gx;
    }
    return NoGate;
  }

  /** `check_full_adder`: adds each wire where the structure around x, y
      and z departs from a full adder to the errors set. */
  method CheckFullAdder(x: string, y: string, z: string, gates: map<string, Gate>, ignoreCarry: bool)
    returns (r: Checked)
    ensures r == FullAdder(x, y, z, gates, ignoreCarry)
  {
    hide Sole, SharedGate, Matching;
    var xor1 := GetShared(x, y, "XOR", gates);
    if !xor1.Found? {
      return Fails;
    }
    var and1 := GetShared(x, y, "AND", gates);
    if !and1.Found? || z !in gates {
      return Fails;
    }
    var errors: set<string> := {};
    if gates[z].op != "XOR" {
      errors := errors + {z};
    }
    var xor2 := GetGate(xor1.gate.out, "XOR", gates);
    if xor2.Ambiguous? {
      return Fails;
    }
    if !ignoreCarry && xor2.NoGate? {
      errors := errors + {xor1.gate.out};
    }
    if xor2.Found? && xor2.gate.out != z {
      errors := errors + {xor2.gate.out};
    }
    var and2 := GetGate(xor1.gate.out, "AND", gates);
    if and2.Ambiguous? {
      return Fails;
    }
    if !ignoreCarry && and2.NoGate? {
      errors := errors + {xor1.gate.out};
    }
    var or := GetGate(and1.gate.out, "OR", gates);
    if or.Ambiguous? {
      return Fails;
    }
    if !ignoreCarry && or.NoGate? {
      errors := errors + {and1.gate.out};
    }
    return Flags(errors);
  }

  /** The flags of the first n adders together, or Fails if one of them
      fails. */
  ghost function AdderFlags(xs: seq<string>, ys: seq<string>, zs: seq<string>, gates: map<string, Gate>, n: nat): Checked
    requires n <= |xs| == |ys| == |zs|
  {
    if n == 0 then Flags({})
    else
      var prev := AdderFlags(xs, ys, zs, gates, n - 1);
      var c := FullAdder(xs[n - 1], ys[n - 1], zs[n - 1], gates, xs[n - 1] == "x00");
      if prev.Fails? || c.Fails? then Fails else Flags(prev.names + c.names)
  }

  /** A failing adder makes the whole check fail. */
  lemma {:induction false} AdderFlagsFailStays(xs: seq<string>, ys: seq<string>, zs: seq<string>,
                                              gates: map<string, Gate>, n: nat, m: nat)
    requires n <= m <= |xs| == |ys| == |zs|
    requires AdderFlags(xs, ys, zs, gates, n).Fails?
    ensures AdderFlags(xs, ys, zs, gates, m).Fails?
    decreases m
  {
    hide FullAdder;
    if n < m {
      AdderFlagsFailStays(xs, ys, zs, gates, n, m - 1);
    }
  }

  /** Every wire part 2 reports is a gate output. */
  lemma {:induction false} AdderFlagsOutputs(xs: seq<string>, ys: seq<string>, zs: seq<string>,
                                            gates: map<string, Gate>, n: nat)
    requires n <= |xs| == |ys| == |zs| && WellFormed(gates)
    requires AdderFlags(xs, ys, zs, gates, n).Flags?
    ensures AdderFlags(xs, ys, zs, gates, n).names <= gates.Keys
  {
    hide FullAdder, Sole, SharedGate, Matching;
    if n > 0 {
      AdderFlagsOutputs(xs, ys, zs, gates, n - 1);
      FlagsAreOutputs(xs[n - 1], ys[n - 1], zs[n - 1], gates, xs[n - 1] == "x00");
    }
  }

  /** The x and y inputs and the z outputs but the last (the final
      carry), one triple per bit; None where the source raises. */
  ghost function Columns(wires: map<string, bool>, gates: map<string, Gate>): Option<(seq<string>, seq<string>, seq<string>)>
  {
    var xs := SortedList(Prefixed(wires.Keys, "x"));
    var ys := SortedList(Prefixed(wires.Keys, "y"));
    var zs := ZNames(gates);
    if zs == [] || !(|xs| == |ys| == |zs| - 1) then None
    else Some((xs, ys, zs[..|zs| - 1]))
  }

  /** What part 2 reports: every flagged wire of every bit, or None. */
  ghost function Flagged(wires: map<string, bool>, gates: map<string, Gate>): Option<set<string>>
  {
    var cols := Columns(wires, gates);
    if cols.None? then None
    else
      var (xs, ys, zs) := cols.value;
      var flags := AdderFlags(xs, ys, zs, gates, |xs|);
      if flags.Fails? then None else Some(flags.names)
  }

  /** Every wire part 2 reports is a gate output. */
  lemma FlaggedAreOutputs(wires: map<string, bool>, gates: map<string, Gate>)
    requires WellFormed(gates) && Flagged(wires, gates).Some?
    ensures Flagged(wires, gates).value <= gates.Keys
  {
    var (xs, ys, zs) := Columns(wires, gates).value;
    AdderFlagsOutputs(xs, ys, zs, gates, |xs|);
  }

  /** `part2`: checks every bit's full adder, bit 0 without its carry,
      and lists the flagged wires in sorted order (the source joins them
      with commas). */
  method Part2(wires: map<string, bool>, gates: map<string, Gate>) returns (r: Option<seq<string>>)
    ensures r.Some? <==> Flagged(wires, gates).Some?
    ensures r.Some? ==> r.value == SortedList(Flagged(wires, gates).value)
  {
    hide FullAdder, Sole, SharedGate, Matching, SortedList;
    var xs := WireNames(wires, "x");
    var ys := WireNames(wires, "y");
    var zsAll := GateNames(gates, "z");
    if zsAll == [] || !(|xs| == |ys| == |zsAll| - 1) {
      return None;
    }
    var zs := zsAll[..|zsAll| - 1];
    var errors: set<string> := {};
    for i := 0 to |xs|
      invariant AdderFlags(xs, ys, zs, gates, i) == Flags(errors)
    {
      var errs := CheckFullAdder(xs[i], ys[i], zs[i], gates, xs[i] == "x00");
      if errs.Fails? {
        AdderFlagsFailStays(xs, ys, zs, gates, i + 1, |xs|);
        return None;
      }
      errors := errors + errs.names;
    }
    var sorted := SortNames(errors);
    return Some(sorted);
  }
}
