/** The UTF-8 automaton of Charsetfunctions.java, and which bytes it lets pass (RFC 3629). */
module Utf8 {
  import opened Bytes
  import opened Fragments
  import opened Frames
  import opened Seqs

  // ------------------------------------------------------------------ UTF-8

  /** A Unicode scalar value: any code point but those of surrogates. */
  predicate IsScalar(cp: nat) {
    cp < 0xD800 || 0xE000 <= cp <= 0x10_FFFF
  }

  /** The bytes of one character. */
  function Encoded(cp: nat): (s: seq<byte>)
    requires IsScalar(cp)
    ensures 1 <= |s| <= 4
  {
    if cp < 0x80 then [cp as byte]
    else if cp < 0x800 then [(0xC0 + cp / 0x40) as byte, Tail(cp)]
    else if cp < 0x1_0000 then [(0xE0 + cp / 0x1000) as byte, Tail(cp / 0x40), Tail(cp)]
    else [(0xF0 + cp / 0x4_0000) as byte, Tail(cp / 0x1000), Tail(cp / 0x40), Tail(cp)]
  }

  function Tail(n: nat): byte {
    (0x80 + n % 0x40) as byte
  }

  /** The bytes are those of the characters. */
  ghost predicate Spell(cps: seq<nat>, s: seq<byte>)
    decreases |cps|
  {
    if cps == [] then s == [] else IsScalar(cps[0]) && Encoded(cps[0]) <= s && Spell(cps[1..], s[|Encoded(cps[0])|..])
  }

  /** The bytes are a text in UTF-8. */
  ghost predicate WellFormed(s: seq<byte>) {
    exists cps :: Spell(cps, s)
  }

  /** The bytes can be continued to a text in UTF-8. */
  ghost predicate BeginsWell(s: seq<byte>) {
    exists rest :: WellFormed(s + rest)
  }

  // ------------------------------------------------------------------ the automaton

  /** The class of a byte: the first 256 numbers of the table. */
  function Class(b: byte): int {
    if b <= 0x7F then 0
    else if b <= 0x8F then 1
    else if b <= 0x9F then 9
    else if b <= 0xBF then 7
    else if b <= 0xC1 then 8
    else if b <= 0xDF then 2
    else if b == 0xE0 then 10
    else if b <= 0xEC then 3
    else if b == 0xED then 4
    else if b <= 0xEF then 3
    else if b == 0xF0 then 11
    else if b <= 0xF3 then 6
    else if b == 0xF4 then 5
    else 8
  }

  /** The next state: the rows of the table for the states 0 to 8. State 1 is the one that rejects. */
  function Next(state: int, class_: int): int {
    match state
    case 0 => Start(class_)
    case 2 => if class_ in {1, 7, 9} then 0 else 1
    case 3 => if class_ in {1, 7, 9} then 2 else 1
    case 4 => if class_ == 7 then 2 else 1
    case 5 => if class_ in {1, 9} then 2 else 1
    case 6 => if class_ in {7, 9} then 3 else 1
    case 7 => if class_ in {1, 7, 9} then 3 else 1
    case 8 => if class_ == 1 then 3 else 1
    case _ => 1
  }

  function Start(class_: int): int {
    match class_
    case 0 => 0
    case 2 => 2
    case 3 => 3
    case 4 => 5
    case 5 => 8
    case 6 => 7
    case 10 => 4
    case 11 => 6
    case _ => 1
  }

  function Step(state: int, b: byte): int {
    Next(state, Class(b))
  }

  /** The state after all of s. */
  function Run(state: int, s: seq<byte>): int
    decreases |s|
  {
    if s == [] then state else Run(Step(state, s[0]), s[1..])
  }

  /** isValidUTF8. */
  method IsValidUtf8(data: seq<byte>, off: nat) returns (valid: bool)
    ensures valid <==> off <= |data| && BeginsWell(data[off..])
  {
    if |data| < off { return false; }
    Passes(data[off..]);
    var state := 0;
    for i := off to |data|
      invariant NeverRejects(Step, 0, data[off..]) <==> NeverRejects(Step, state, data[i..])
    {
      assert data[i..][1..] == data[i + 1..];
      state := Step(state, data[i]);
      if state == 1 { return false; }
    }
    return true;
  }

  // ------------------------------------------------------------------ characters pass

  lemma {:induction false} RunTwice(state: int, a: seq<byte>, b: seq<byte>)
    ensures Run(state, a + b) == Run(Run(state, a), b)
    ensures NeverRejects(Step, state, a + b) <==> NeverRejects(Step, state, a) && NeverRejects(Step, Run(state, a), b)
    decreases |a|
  {
    if a == [] {
      assert a + b == b;
    } else {
      assert (a + b)[0] == a[0] && (a + b)[1..] == a[1..] + b;
      RunTwice(Step(state, a[0]), a[1..], b);
    }
  }

  lemma {:induction false} Run1(state: int, a: byte)
    ensures Run(state, [a]) == Step(state, a) && (NeverRejects(Step, state, [a]) <==> Step(state, a) != 1)
  {
    assert [a][1..] == [];
  }

  lemma {:induction false} Run2(state: int, a: byte, b: byte)
    ensures Run(state, [a, b]) == Step(Step(state, a), b)
    ensures NeverRejects(Step, state, [a, b]) <==> Step(state, a) != 1 && Step(Step(state, a), b) != 1
  {
    assert [a, b] == [a] + [b];
    RunTwice(state, [a], [b]);
    Run1(state, a);
    Run1(Step(state, a), b);
  }

  lemma {:induction false} Run3(state: int, a: byte, b: byte, c: byte)
    ensures Run(state, [a, b, c]) == Step(Step(Step(state, a), b), c)
    ensures NeverRejects(Step, state, [a, b, c]) <==>
      Step(state, a) != 1 && Step(Step(state, a), b) != 1 && Step(Step(Step(state, a), b), c) != 1
  {
    assert [a, b, c] == [a, b] + [c];
    RunTwice(state, [a, b], [c]);
    Run2(state, a, b);
    Run1(Step(Step(state, a), b), c);
  }

  // ------------------------------------------------------------------ characters by their bytes

  predicate IsTail(b: byte) {
    0x80 <= b <= 0xBF
  }

  /** The second byte of a character of three or four bytes: only the shortest form counts, and no surrogates. */
  predicate IsSecond(a: byte, b: byte) {
    && IsTail(b)
    && (a == 0xE0 ==> b >= 0xA0) && (a == 0xED ==> b <= 0x9F)
    && (a == 0xF0 ==> b >= 0x90) && (a == 0xF4 ==> b <= 0x8F)
  }

  predicate IsChar(s: seq<byte>) {
    || (|s| == 1 && s[0] < 0x80)
    || (|s| == 2 && 0xC2 <= s[0] <= 0xDF && IsTail(s[1]))
    || (|s| == 3 && 0xE0 <= s[0] <= 0xEF && IsSecond(s[0], s[1]) && IsTail(s[2]))
    || (|s| == 4 && 0xF0 <= s[0] <= 0xF4 && IsSecond(s[0], s[1]) && IsTail(s[2]) && IsTail(s[3]))
  }

  lemma EncodedIsChar(cp: nat)
    requires IsScalar(cp)
    ensures IsChar(Encoded(cp))
  {}

  lemma LastDigit(high: nat, b: byte)
    requires IsTail(b)
    ensures (high * 0x40 + (b - 0x80) as nat) / 0x40 == high && Tail(high * 0x40 + (b - 0x80) as nat) == b
  {}

  lemma {:induction false} CharIsEncoded(s: seq<byte>) returns (cp: nat)
    requires IsChar(s)
    ensures IsScalar(cp) && Encoded(cp) == s
  {
    if |s| == 1 {
      cp := s[0] as nat;
    } else if |s| == 2 {
      cp := (s[0] - 0xC0) as nat * 0x40 + (s[1] - 0x80) as nat;
      LastDigit((s[0] - 0xC0) as nat, s[1]);
    } else if |s| == 3 {
      cp := ThreeBytes(s);
    } else {
      cp := FourBytes(s);
    }
  }

  lemma {:induction false} ThreeBytes(s: seq<byte>) returns (cp: nat)
    requires IsChar(s) && |s| == 3
    ensures IsScalar(cp) && Encoded(cp) == s
  {
    var a := (s[0] - 0xE0) as nat;
    var b := a * 0x40 + (s[1] - 0x80) as nat;
    cp := b * 0x40 + (s[2] - 0x80) as nat;
    LastDigit(a, s[1]);
    LastDigit(b, s[2]);
    assert cp / 0x1000 == cp / 0x40 / 0x40;
  }

  lemma {:induction false} FourBytes(s: seq<byte>) returns (cp: nat)
    requires IsChar(s) && |s| == 4
    ensures IsScalar(cp) && Encoded(cp) == s
  {
    var a := (s[0] - 0xF0) as nat;
    var b := a * 0x40 + (s[1] - 0x80) as nat;
    var c := b * 0x40 + (s[2] - 0x80) as nat;
    cp := c * 0x40 + (s[3] - 0x80) as nat;
    LastDigit(a, s[1]);
    LastDigit(b, s[2]);
    LastDigit(c, s[3]);
    assert cp / 0x1000 == cp / 0x40 / 0x40 && cp / 0x4_0000 == cp / 0x1000 / 0x40;
  }

  lemma {:induction false} CharPasses(s: seq<byte>)
    requires IsChar(s)
    ensures Run(0, s) == 0 && NeverRejects(Step, 0, s)
  {
    if |s| == 1 {
      Run1(0, s[0]);
    } else if |s| == 2 {
      assert s == [s[0], s[1]];
      Run2(0, s[0], s[1]);
    } else if |s| == 3 {
      assert s == [s[0], s[1], s[2]];
      Run3(0, s[0], s[1], s[2]);
    } else {
      assert s == [s[0]] + [s[1], s[2], s[3]];
      RunTwice(0, [s[0]], [s[1], s[2], s[3]]);
      Run1(0, s[0]);
      Run3(Step(0, s[0]), s[1], s[2], s[3]);
    }
  }

  // ------------------------------------------------------------------ what passes begins with characters

  function Length(first: byte): nat {
    if first < 0x80 then 1 else if first < 0xE0 then 2 else if first < 0xF0 then 3 else 4
  }

  /** The first bytes of a character, perhaps all of them. */
  predicate IsStart(s: seq<byte>) {
    && 1 <= |s| <= Length(s[0])
    && (s[0] < 0x80 || 0xC2 <= s[0] <= 0xF4)
    && (|s| >= 2 ==> IsSecond(s[0], s[1])) && (|s| >= 3 ==> IsTail(s[2])) && (|s| >= 4 ==> IsTail(s[3]))
  }

  lemma {:induction false} PassedIsStart(s: seq<byte>)
    requires 1 <= |s| <= Length(s[0]) && NeverRejects(Step, 0, s)
    ensures IsStart(s) && (Run(0, s) == 0 ==> |s| == Length(s[0]))
  {
    hide NeverRejects;
    if |s| == 1 {
      assert s == [s[0]];
      Run1(0, s[0]);
    } else if |s| == 2 {
      assert s == [s[0], s[1]];
      Run2(0, s[0], s[1]);
    } else if |s| == 3 {
      assert s == [s[0], s[1], s[2]];
      Run3(0, s[0], s[1], s[2]);
    } else {
      assert s == [s[0]] + [s[1], s[2], s[3]];
      RunTwice(0, [s[0]], [s[1], s[2], s[3]]);
      Run1(0, s[0]);
      Run3(Step(0, s[0]), s[1], s[2], s[3]);
    }
  }

  /** What may follow to make a character of its first bytes. */
  lemma {:induction false} StartCompleted(s: seq<byte>) returns (rest: seq<byte>)
    requires IsStart(s)
    ensures IsChar(s + rest) && (|s| == Length(s[0]) ==> rest == [])
  {
    var n := Length(s[0]) - |s|;
    if |s| == 1 {
      var second: byte := if s[0] == 0xE0 then 0xA0 else if s[0] == 0xF0 then 0x90 else 0x80;
      rest := [second, 0x80, 0x80][..n];
    } else {
      rest := [0x80, 0x80][..n];
    }
  }

  lemma {:induction false} CharThen(s: seq<byte>, t: seq<byte>)
    requires IsChar(s) && WellFormed(t)
    ensures WellFormed(s + t)
  {
    var cp := CharIsEncoded(s);
    var cps :| Spell(cps, t);
    assert (s + t)[|s|..] == t && ([cp] + cps)[1..] == cps;
    assert Spell([cp] + cps, s + t);
  }

  lemma {:induction false} PassedBeginsWell(s: seq<byte>)
    requires NeverRejects(Step, 0, s)
    ensures BeginsWell(s) && (Run(0, s) == 0 ==> WellFormed(s))
    decreases |s|
  {
    hide IsChar, IsStart, Encoded, Step;
    assert Spell([], []);
    if s == [] {
      assert s + [] == [] && WellFormed(s + []);
    } else {
      var n := if |s| < Length(s[0]) then |s| else Length(s[0]);
      var a, b := s[..n], s[n..];
      assert s == a + b;
      RunTwice(0, a, b);
      PassedIsStart(a);
      var rest := StartCompleted(a);
      if rest == [] {
        assert a + rest == a;
        CharPasses(a);
        PassedBeginsWell(b);
        var more :| WellFormed(b + more);
        CharThen(a, b + more);
        assert a + (b + more) == s + more;
        if Run(0, b) == 0 { CharThen(a, b); }
      } else {
        CharThen(a + rest, []);
        assert b == [] && a + rest + [] == s + rest;
      }
    }
  }

  lemma {:induction false} WellFormedPasses(cps: seq<nat>, s: seq<byte>)
    requires Spell(cps, s)
    ensures Run(0, s) == 0 && NeverRejects(Step, 0, s)
    decreases |cps|
  {
    if cps != [] {
      var n := |Encoded(cps[0])|;
      EncodedIsChar(cps[0]);
      CharPasses(s[..n]);
      WellFormedPasses(cps[1..], s[n..]);
      assert s == s[..n] + s[n..];
      RunTwice(0, s[..n], s[n..]);
    }
  }

  // ------------------------------------------------------------------ what passes

  /** The automaton lets pass exactly the bytes that can be continued to UTF-8, and ends in state 0 exactly for UTF-8. */
  lemma {:induction false} Passes(s: seq<byte>)
    ensures NeverRejects(Step, 0, s) <==> BeginsWell(s)
    ensures NeverRejects(Step, 0, s) && Run(0, s) == 0 <==> WellFormed(s)
  {
    if NeverRejects(Step, 0, s) { PassedBeginsWell(s); }
    if BeginsWell(s) {
      var rest :| WellFormed(s + rest);
      var cps :| Spell(cps, s + rest);
      WellFormedPasses(cps, s + rest);
      RunTwice(0, s, rest);
    }
    if WellFormed(s) {
      var cps :| Spell(cps, s);
      WellFormedPasses(cps, s);
    }
  }

  /** The automaton is this one, and the strict decoder accepts UTF-8. */
  ghost predicate IsUtf8(c: Settings) {
    c.step == Step && forall s :: c.strict(s) <==> WellFormed(s)
  }

  /** Every first part of a text in UTF-8 passes, also one that ends within a character. */
  lemma {:induction false} FirstPartPasses(c: Settings, s: seq<byte>, t: seq<byte>)
    requires IsUtf8(c) && WellFormed(s + t)
    ensures ValidUtf8(c, s)
  {
    Passes(s);
  }

  /** The messages that arrive: a text has to be UTF-8. */
  lemma {:induction false} TextIsUtf8(c: Settings, op: Opcode, data: seq<byte>)
    requires IsUtf8(c)
    ensures Deliverable(c, op, data) <==> |data| <= c.maxFrameSize && (op == Text ==> WellFormed(data))
  {
    Passes(data);
  }
}
