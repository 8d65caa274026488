/**
 * The two scanners that walk EVM bytecode instruction by instruction: `hasSelector`, which searches
 * as it goes, and `decodeOpcodes` followed by `containsSelector`. Both read the hexadecimal text.
 */
module BytecodeScan {
  import opened Prelude
  import opened Arithmetic

  // ---------------------------------------------------------------- text, as JavaScript reads it

  /** `text.slice(from, to)` for indices that are not negative: both are clamped to the length. */
  function Slice(s: string, from: nat, to: nat): string {
    var start := if from < |s| then from else |s|;
    var end := if to < |s| then to else |s|;
    if start <= end then s[start..end] else []
  }

  predicate IsHex(c: char) {
    '0' <= c <= '9' || 'a' <= c <= 'f' || 'A' <= c <= 'F'
  }

  function HexValue(c: char): (n: nat)
    requires IsHex(c)
    ensures n < 16
  {
    if c <= '9' then (c - '0') as nat
    else if c <= 'F' then (c - 'A') as nat + 10
    else (c - 'a') as nat + 10
  }

  predicate IsBlank(c: char) {
    c == ' ' || '\t' <= c <= '\r'
  }

  /** How far `parseInt` has come: past blanks, a sign, a zero, a `0x`, or some digits. */
  datatype Reading = Blanks | Signed(neg: bool) | Zero(neg: bool) | Prefixed(neg: bool) | Digits(neg: bool, so: nat)

  function Settle(r: Reading): Option<int> {
    match r
    case Zero(_) => Some(0)
    case Digits(neg, so) => Some(if neg then -(so as int) else so as int)
    case _ => None
  }

  function Read(s: string, r: Reading): Option<int>
    decreases |s|, r.Blanks?
  {
    if s == [] then Settle(r)
    else if r.Blanks? then
      if IsBlank(s[0]) then Read(s[1..], Blanks)
      else if s[0] == '-' || s[0] == '+' then Read(s[1..], Signed(s[0] == '-'))
      else Read(s, Signed(false))
    else if r.Signed? && s[0] == '0' then Read(s[1..], Zero(r.neg))
    else if r.Zero? && (s[0] == 'x' || s[0] == 'X') then Read(s[1..], Prefixed(r.neg))
    else if IsHex(s[0]) then
      Read(s[1..], Digits(r.neg, (if r.Digits? then r.so * 16 else 0) + HexValue(s[0])))
    else Settle(r)
  }

  /** `Number.parseInt(text, 16)`; None is NaN. */
  function ParseHex(s: string): Option<int> {
    Read(s, Blanks)
  }

  /**
   * What `parseInt` makes of two characters: two digits are a byte; a digit before something else counts
   * alone, but `0x` announces digits that do not come; a sign or a blank before a digit is passed over.
   */
  lemma TwoCharacters(a: char, b: char)
    ensures ParseHex([a, b]) ==
              if IsHex(a) && IsHex(b) then Some(16 * HexValue(a) + HexValue(b))
              else if a == '0' && (b == 'x' || b == 'X') then None
              else if IsHex(a) then Some(HexValue(a))
              else if !IsHex(b) then None
              else if a == '-' then Some(-(HexValue(b) as int))
              else if a == '+' || a == ' ' || ('\t' <= a <= '\r') then Some(HexValue(b))
              else None
  {
    hide HexValue;
    OneCharacter(b);
    var s := [a, b];
    assert s[1..] == [b];
    if IsBlank(a) {
      assert Read(s, Blanks) == Read([b], Blanks);
    } else if a == '-' || a == '+' {
      assert Read(s, Blanks) == Read([b], Signed(a == '-'));
    } else {
      assert Read(s, Blanks) == Read(s, Signed(false));
      if a == '0' {
        assert Read(s, Signed(false)) == Read([b], Zero(false));
      } else if IsHex(a) {
        assert Read(s, Signed(false)) == Read([b], Digits(false, HexValue(a)));
      }
    }
    assert a == '0' ==> HexValue(a) == 0 by { ZeroDigit(); }
  }

  lemma ZeroDigit()
    ensures HexValue('0') == 0
  {
  }

  lemma OneCharacter(b: char)
    ensures [b][1..] == [] && ParseHex([b]) == if IsHex(b) then Some(HexValue(b)) else None
    ensures forall neg: bool ::
              Read([b], Signed(neg)) ==
                if IsHex(b) then Some(if neg then -(HexValue(b) as int) else HexValue(b) as int) else None
    ensures forall r: Reading :: !r.Blanks? && !IsHex(b) && !(r.Zero? && (b == 'x' || b == 'X')) ==>
              Read([b], r) == Settle(r)
    ensures forall neg: bool, so: nat :: IsHex(b) ==>
              Read([b], Digits(neg, so)) == Settle(Digits(neg, so * 16 + HexValue(b)))
    ensures forall neg: bool :: IsHex(b) ==> Read([b], Zero(neg)) == Settle(Digits(neg, HexValue(b)))
    ensures forall neg: bool :: b == 'x' || b == 'X' ==> Read([b], Zero(neg)) == None
  {
    assert [b][1..] == [];
    assert forall r: Reading :: Read([], r) == Settle(r);
    assert Read([b], Signed(false)) == if IsHex(b) then Some(HexValue(b) as int) else None;
    assert Read([b], Blanks) ==
      if IsBlank(b) || b == '-' || b == '+' then None else Read([b], Signed(false));
  }

  // ---------------------------------------------------------------- instructions

  const PUSH4 := 0x63

  function PushLength(opcode: int): nat {
    if 0x60 <= opcode <= 0x7f then opcode - 0x5f else 0
  }

  datatype Opcode = Opcode(offset: nat, value: int, pushData: string)

  /** The instruction whose two digits start at byte `offset`. */
  function At(bytes: string, offset: nat): Option<Opcode> {
    match ParseHex(Slice(bytes, offset * 2, offset * 2 + 2))
    case None => None
    case Some(value) =>
      Some(Opcode(offset, value, Slice(bytes, (offset + 1) * 2, (offset + 1 + PushLength(value)) * 2)))
  }

  /** The instruction that pushes `n` bytes carries the `n` bytes behind it, or what there is; others carry none. */
  lemma PushCarries(bytes: string, offset: nat, n: nat)
    requires At(bytes, offset).Some?
    ensures var op := At(bytes, offset).value;
      && (1 <= n <= 32 && op.value == 0x5f + n ==>
            op.pushData == Slice(bytes, (offset + 1) * 2, (offset + 1) * 2 + 2 * n))
      && (!(0x60 <= op.value < 0x60 + 32) ==> op.pushData == "")
  {
  }

  function Next(op: Opcode): nat {
    op.offset + 1 + PushLength(op.value)
  }

  /** Where a walk that has passed `ops` stands. */
  function End(ops: seq<Opcode>): nat {
    if ops == [] then 0 else Next(ops[|ops| - 1])
  }

  /** Instruction `k` is the one written at its offset, and starts where the one before it ends. */
  predicate Link(bytes: string, ops: seq<Opcode>, k: nat)
    requires k < |ops|
  {
    && ops[k].offset == (if k == 0 then 0 else Next(ops[k - 1]))
    && ops[k].offset * 2 < |bytes|
    && At(bytes, ops[k].offset) == Some(ops[k])
  }

  /** The instructions tile a prefix of the code, in order. */
  predicate Consecutive(bytes: string, ops: seq<Opcode>) {
    forall k: nat :: k < |ops| ==> Link(bytes, ops, k)
  }

  /** Nothing more can be decoded: the text is used up, or the next two characters are no number. */
  predicate Stuck(bytes: string, offset: nat) {
    offset * 2 >= |bytes| || At(bytes, offset).None?
  }

  /** A complete decoding. */
  predicate Decodes(bytes: string, ops: seq<Opcode>) {
    Consecutive(bytes, ops) && Stuck(bytes, End(ops))
  }

  predicate Pushes(ops: seq<Opcode>, needle: string) {
    exists k :: 0 <= k < |ops| && ops[k].value == PUSH4 && ops[k].pushData == needle
  }

  // ---------------------------------------------------------------- exactly one decoding

  lemma Extend(bytes: string, ops: seq<Opcode>, op: Opcode)
    requires Consecutive(bytes, ops) && op.offset == End(ops) && op.offset * 2 < |bytes|
    requires At(bytes, op.offset) == Some(op)
    ensures Consecutive(bytes, ops + [op]) && End(ops + [op]) == Next(op)
  {
    var more := ops + [op];
    forall k: nat | k < |more|
      ensures Link(bytes, more, k)
    {
      assert k < |ops| ==> Link(bytes, ops, k);
    }
  }

  lemma Shorter(bytes: string, ops: seq<Opcode>)
    requires Consecutive(bytes, ops) && ops != []
    ensures Consecutive(bytes, ops[..|ops| - 1]) && Link(bytes, ops, |ops| - 1)
    ensures ops[|ops| - 1].offset == End(ops[..|ops| - 1])
  {
    var before := ops[..|ops| - 1];
    forall k: nat | k < |before|
      ensures Link(bytes, before, k)
    {
      assert Link(bytes, ops, k);
    }
    assert Link(bytes, ops, |ops| - 1);
  }

  /** A partial decoding is a prefix of any complete one. */
  lemma {:induction false} Reaches(bytes: string, part: seq<Opcode>, whole: seq<Opcode>)
    requires Consecutive(bytes, part) && Decodes(bytes, whole)
    ensures |part| <= |whole| && part == whole[..|part|]
  {
    if part != [] {
      var n := |part| - 1;
      var before := part[..n];
      Shorter(bytes, part);
      Reaches(bytes, before, whole);
      NextAgrees(bytes, before, part[n], whole);
      assert part == before + [part[n]];
    }
  }

  lemma NextAgrees(bytes: string, before: seq<Opcode>, op: Opcode, whole: seq<Opcode>)
    requires |before| <= |whole| && before == whole[..|before|] && Decodes(bytes, whole)
    requires op.offset == End(before) && op.offset * 2 < |bytes| && At(bytes, op.offset) == Some(op)
    ensures |before| < |whole| && whole[|before|] == op
  {
    assert whole == before ==> Stuck(bytes, op.offset);
    assert whole[..|whole|] == whole;
    assert |before| < |whole| ==> Link(bytes, whole, |before|);
  }

  lemma OneDecoding(bytes: string, ops: seq<Opcode>, others: seq<Opcode>)
    requires Decodes(bytes, ops) && Decodes(bytes, others)
    ensures ops == others
  {
    Reaches(bytes, ops, others);
    Reaches(bytes, others, ops);
  }

  function Continue(bytes: string, ops: seq<Opcode>): (r: seq<Opcode>)
    requires Consecutive(bytes, ops)
    ensures Decodes(bytes, r)
    decreases |bytes| - End(ops) * 2
  {
    var offset := End(ops);
    if Stuck(bytes, offset) then ops
    else
      Extend(bytes, ops, At(bytes, offset).value);
      Continue(bytes, ops + [At(bytes, offset).value])
  }

  function Decode(bytes: string): (ops: seq<Opcode>)
    ensures Decodes(bytes, ops)
  {
    Continue(bytes, [])
  }

  // ---------------------------------------------------------------- the loops

  /** The text after the `0x`. */
  function Body(hex: string): string {
    Slice(hex, 2, |hex|)
  }

  method DecodeOpcodes(code: string) returns (opcodes: seq<Opcode>)
    ensures opcodes == Decode(Body(code))
  {
    hide Read, Body, Decode, Slice;
    var bytes := Body(code);
    opcodes := [];
    var byteOffset: nat := 0;
    while byteOffset * 2 < |bytes|
      invariant Consecutive(bytes, opcodes) && byteOffset == End(opcodes)
      decreases |bytes| - byteOffset * 2
    {
      var encoded := Slice(bytes, byteOffset * 2, byteOffset * 2 + 2);
      var value := ParseHex(encoded);
      if value.None? {
        break;
      }
      var pushLength := if 0x60 <= value.value <= 0x7f then value.value - 0x5f else 0;
      var pushData := Slice(bytes, (byteOffset + 1) * 2, (byteOffset + 1 + pushLength) * 2);
      var opcode := Opcode(byteOffset, value.value, pushData);
      Extend(bytes, opcodes, opcode);
      opcodes := opcodes + [opcode];
      byteOffset := byteOffset + 1 + pushLength;
    }
    OneDecoding(bytes, opcodes, Decode(bytes));
  }

  /** Decode first, then search; the code keeps its letter case, the selector does not. */
  method ContainsSelector(code: string, selector: string) returns (found: bool)
    ensures found == Pushes(Decode(Body(code)), Lower(Body(selector)))
  {
    var needle := Lower(Body(selector));
    var opcodes := DecodeOpcodes(code);
    found := exists k :: 0 <= k < |opcodes| && opcodes[k].value == PUSH4 && opcodes[k].pushData == needle;
  }

  lemma PushesOneMore(ops: seq<Opcode>, op: Opcode, needle: string)
    ensures Pushes(ops + [op], needle)
        <==> Pushes(ops, needle) || (op.value == PUSH4 && op.pushData == needle)
  {
    var more := ops + [op];
    assert more[|ops|] == op;
    if Pushes(ops, needle) {
      var k :| 0 <= k < |ops| && ops[k].value == PUSH4 && ops[k].pushData == needle;
      assert more[k] == ops[k];
    }
  }

  /** The fused scan decides the same question as decoding the lower-cased code and searching. */
  method HasSelector(code: string, selector: string) returns (found: bool)
    ensures found == Pushes(Decode(Lower(Body(code))), Lower(Body(selector)))
  {
    hide Read, Lower, Decode, Body, Slice;
    var bytes := Lower(Body(code));
    var expected := Lower(Body(selector));
    var offset: nat := 0;
    ghost var passed: seq<Opcode> := [];
    found := false;
    while offset * 2 < |bytes|
      invariant Consecutive(bytes, passed) && offset == End(passed)
      invariant !Pushes(passed, expected)
      decreases |bytes| - offset * 2
    {
      var opcode := ParseHex(Slice(bytes, offset * 2, offset * 2 + 2));
      if opcode.None? {
        OneDecoding(bytes, passed, Decode(bytes));
        return false;
      }
      var pushLength := if 0x60 <= opcode.value <= 0x7f then opcode.value - 0x5f else 0;
      ghost var op := Opcode(offset, opcode.value, Slice(bytes, (offset + 1) * 2, (offset + 1 + pushLength) * 2));
      Extend(bytes, passed, op);
      PushesOneMore(passed, op, expected);
      if opcode.value == PUSH4 && Slice(bytes, (offset + 1) * 2, (offset + 5) * 2) == expected {
        FoundBy(bytes, passed + [op], expected);
        return true;
      }
      passed := passed + [op];
      offset := offset + 1 + pushLength;
    }
    OneDecoding(bytes, passed, Decode(bytes));
  }

  lemma FoundBy(bytes: string, passed: seq<Opcode>, needle: string)
    requires Consecutive(bytes, passed) && Pushes(passed, needle)
    ensures Pushes(Decode(bytes), needle)
  {
    var ops := Decode(bytes);
    Reaches(bytes, passed, ops);
    var k :| 0 <= k < |passed| && passed[k].value == PUSH4 && passed[k].pushData == needle;
    assert ops[k] == passed[k];
  }

  // ---------------------------------------------------------------- letter case

  lemma LowerSlice(s: string, from: nat, to: nat)
    ensures Slice(Lower(s), from, to) == Lower(Slice(s, from, to))
  {
  }

  /** Letter case does not change the number that `parseInt` reads. */
  lemma {:induction false} LowerReads(s: string, r: Reading)
    ensures Read(Lower(s), r) == Read(s, r)
    decreases |s|, r.Blanks?
  {
    if s != [] {
      assert Lower(s)[1..] == Lower(s[1..]);
      if r.Blanks? {
        if IsBlank(s[0]) {
          LowerReads(s[1..], Blanks);
        } else if s[0] == '-' || s[0] == '+' {
          LowerReads(s[1..], Signed(s[0] == '-'));
        } else {
          LowerReads(s, Signed(false));
        }
      } else if r.Signed? && s[0] == '0' {
        LowerReads(s[1..], Zero(r.neg));
      } else if r.Zero? && (s[0] == 'x' || s[0] == 'X') {
        LowerReads(s[1..], Prefixed(r.neg));
      } else if IsHex(s[0]) {
        LowerReads(s[1..], Digits(r.neg, (if r.Digits? then r.so * 16 else 0) + HexValue(s[0])));
      }
    }
  }

  function LowerData(op: Opcode): Opcode {
    op.(pushData := Lower(op.pushData))
  }

  function LowerAll(ops: seq<Opcode>): (r: seq<Opcode>)
    ensures |r| == |ops| && forall k :: 0 <= k < |r| ==> r[k] == LowerData(ops[k])
  {
    seq(|ops|, k requires 0 <= k < |ops| => LowerData(ops[k]))
  }

  lemma AtLower(bytes: string, offset: nat)
    ensures At(Lower(bytes), offset)
         == (match At(bytes, offset) { case None => None case Some(op) => Some(LowerData(op)) })
  {
    LowerSlice(bytes, offset * 2, offset * 2 + 2);
    LowerReads(Slice(bytes, offset * 2, offset * 2 + 2), Blanks);
    var value := ParseHex(Slice(bytes, offset * 2, offset * 2 + 2));
    if value.Some? {
      LowerSlice(bytes, (offset + 1) * 2, (offset + 1 + PushLength(value.value)) * 2);
    }
  }

  /** Lower-casing the code changes no boundary and no opcode, only the letters of the operands. */
  lemma DecodeLower(bytes: string)
    ensures Decode(Lower(bytes)) == LowerAll(Decode(bytes))
  {
    hide ParseHex, Slice, Decode, Lower;
    var ops := Decode(bytes);
    var low := LowerAll(ops);
    forall k: nat | k < |low|
      ensures Link(Lower(bytes), low, k)
    {
      assert Link(bytes, ops, k);
      AtLower(bytes, ops[k].offset);
    }
    AtLower(bytes, End(ops));
    OneDecoding(Lower(bytes), low, Decode(Lower(bytes)));
  }

  // ---------------------------------------------------------------- the two scanners compared

  ghost predicate FusedFinds(code: string, selector: string) {
    Pushes(Decode(Lower(Body(code))), Lower(Body(selector)))
  }

  ghost predicate SearchFinds(code: string, selector: string) {
    Pushes(Decode(Body(code)), Lower(Body(selector)))
  }

  /** Whatever decoding and searching finds, the fused scan finds. */
  lemma SearchImpliesFused(code: string, selector: string)
    requires SearchFinds(code, selector)
    ensures FusedFinds(code, selector)
  {
    var ops := Decode(Body(code));
    var needle := Lower(Body(selector));
    var k :| 0 <= k < |ops| && ops[k].value == PUSH4 && ops[k].pushData == needle;
    DecodeLower(Body(code));
    LowerTwice(Body(selector));
    assert LowerAll(ops)[k].pushData == needle;
  }

  lemma LowerTwice(s: string)
    ensures Lower(Lower(s)) == Lower(s)
  {
  }

  /** Every PUSH4 operand of the code also occurs as a PUSH4 operand in lower case. */
  ghost predicate OperandsInLowerCase(ops: seq<Opcode>) {
    forall k :: 0 <= k < |ops| && ops[k].value == PUSH4 ==> Pushes(ops, Lower(ops[k].pushData))
  }

  lemma FusedImpliesSearch(code: string, selector: string)
    requires OperandsInLowerCase(Decode(Body(code))) && FusedFinds(code, selector)
    ensures SearchFinds(code, selector)
  {
    var ops := Decode(Body(code));
    DecodeLower(Body(code));
    var low := LowerAll(ops);
    var k :| 0 <= k < |low| && low[k].value == PUSH4 && low[k].pushData == Lower(Body(selector));
    assert Pushes(ops, Lower(ops[k].pushData));
  }

  /** The two scanners give one answer for every selector exactly on such code. */
  lemma ScannersAgreeIff(code: string)
    ensures (forall selector :: FusedFinds(code, selector) == SearchFinds(code, selector))
        <==> OperandsInLowerCase(Decode(Body(code)))
  {
    var ops := Decode(Body(code));
    DecodeLower(Body(code));
    if forall selector :: FusedFinds(code, selector) == SearchFinds(code, selector) {
      forall k | 0 <= k < |ops| && ops[k].value == PUSH4
        ensures Pushes(ops, Lower(ops[k].pushData))
      {
        var selector := "0x" + ops[k].pushData;
        assert Body(selector) == ops[k].pushData;
        assert LowerAll(ops)[k].pushData == Lower(Body(selector));
        assert FusedFinds(code, selector);
        assert SearchFinds(code, selector);
      }
    }
    if OperandsInLowerCase(ops) {
      forall selector
        ensures FusedFinds(code, selector) == SearchFinds(code, selector)
      {
        if SearchFinds(code, selector) {
          SearchImpliesFused(code, selector);
        }
        if FusedFinds(code, selector) {
          FusedImpliesSearch(code, selector);
        }
      }
    }
  }

  /** In particular they agree on lower-case code, whatever the letter case of the selector. */
  lemma ScannersAgree(code: string, selector: string)
    requires Lower(Body(code)) == Body(code)
    ensures FusedFinds(code, selector) == SearchFinds(code, selector)
  {
  }

  // ---------------------------------------------------------------- nothing is skipped

  /** The text that the instructions were read from, put end to end. */
  function Written(bytes: string, ops: seq<Opcode>): string {
    if ops == [] then []
    else
      var op := ops[|ops| - 1];
      Written(bytes, ops[..|ops| - 1]) + Slice(bytes, op.offset * 2, op.offset * 2 + 2) + op.pushData
  }

  /** Opcodes and operands tile the decoded prefix: no character is skipped or read twice. */
  lemma {:induction false} InstructionsTile(bytes: string, ops: seq<Opcode>)
    requires Consecutive(bytes, ops)
    ensures Written(bytes, ops) == Slice(bytes, 0, End(ops) * 2)
  {
    hide ParseHex;
    if ops != [] {
      var n := |ops| - 1;
      var before := ops[..n];
      Shorter(bytes, ops);
      InstructionsTile(bytes, before);
      var at := ops[n].offset * 2;
      Joined(bytes, 0, at, at + 2);
      Joined(bytes, 0, at + 2, Next(ops[n]) * 2);
    }
  }

  lemma Joined(s: string, a: nat, b: nat, c: nat)
    requires a <= b <= c
    ensures Slice(s, a, b) + Slice(s, b, c) == Slice(s, a, c)
  {
    if c <= |s| {
      assert s[a..b] + s[b..c] == s[a..c];
    } else if b <= |s| {
      assert s[a..b] + s[b..] == s[a..];
    }
  }

  predicate IsLowerHex(c: char) {
    '0' <= c <= '9' || 'a' <= c <= 'f'
  }

  predicate LowerHex(s: string) {
    forall i :: 0 <= i < |s| ==> IsLowerHex(s[i])
  }

  function HexChar(n: int): char
    requires 0 <= n < 16
  {
    if n < 10 then '0' + n as char else 'a' + (n - 10) as char
  }

  function HexPair(value: int): string {
    if 0 <= value < 256 then [HexChar(value / 16), HexChar(value % 16)] else "??"
  }

  /** Two digits for the opcode, then its operand. */
  function Assemble(ops: seq<Opcode>): string {
    if ops == [] then []
    else
      var op := ops[|ops| - 1];
      Assemble(ops[..|ops| - 1]) + HexPair(op.value) + op.pushData
  }

  lemma TwoDigits(a: char, b: char)
    requires IsLowerHex(a) && IsLowerHex(b)
    ensures ParseHex([a, b]) == Some(16 * HexValue(a) + HexValue(b))
    ensures HexPair(16 * HexValue(a) + HexValue(b)) == [a, b]
  {
    QuotientIs(16 * HexValue(a) + HexValue(b), 16, HexValue(a), HexValue(b));
    var s := [a, b];
    assert s[1..] == [b] && s[1..][1..] == [];
    assert Read(s, Signed(false))
           == (if a == '0' then Read(s[1..], Zero(false)) else Read(s[1..], Digits(false, HexValue(a))));
    assert Read(s[1..], Zero(false)) == Read([], Digits(false, HexValue(b)));
    assert Read(s[1..], Digits(false, HexValue(a))) == Read([], Digits(false, 16 * HexValue(a) + HexValue(b)));
  }

  /** On whole bytes of lower-case text the decoder never stops early, and assembling undoes it. */
  lemma AssembleUndoesDecode(bytes: string)
    requires |bytes| % 2 == 0 && LowerHex(bytes)
    ensures Assemble(Decode(bytes)) == bytes
  {
    var ops := Decode(bytes);
    AssembleIsWritten(bytes, ops);
    InstructionsTile(bytes, ops);
    UsesAll(bytes, End(ops));
  }

  lemma UsesAll(bytes: string, offset: nat)
    requires |bytes| % 2 == 0 && LowerHex(bytes) && Stuck(bytes, offset)
    ensures Slice(bytes, 0, offset * 2) == bytes
  {
    if offset * 2 < |bytes| {
      ReadsPair(bytes, offset);
    }
  }

  lemma ReadsPair(bytes: string, offset: nat)
    requires |bytes| % 2 == 0 && LowerHex(bytes) && offset * 2 < |bytes|
    ensures At(bytes, offset).Some?
    ensures Slice(bytes, offset * 2, offset * 2 + 2) == HexPair(At(bytes, offset).value.value)
  {
    var a, b := bytes[offset * 2], bytes[offset * 2 + 1];
    assert Slice(bytes, offset * 2, offset * 2 + 2) == [a, b];
    TwoDigits(a, b);
  }

  lemma {:induction false} AssembleIsWritten(bytes: string, ops: seq<Opcode>)
    requires |bytes| % 2 == 0 && LowerHex(bytes) && Consecutive(bytes, ops)
    ensures Assemble(ops) == Written(bytes, ops)
  {
    if ops != [] {
      var n := |ops| - 1;
      Shorter(bytes, ops);
      AssembleIsWritten(bytes, ops[..n]);
      ReadsPair(bytes, ops[n].offset);
    }
  }
}
