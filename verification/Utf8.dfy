/** The UTF-8 automaton of the console: a table gives every byte a class, and another the next
    state for a state and a class. */
module Utf8 {
  import opened Machine

  const UTF8_ACCEPT := 0
  const UTF8_REJECT := 1

  /** The first 256 entries of utf8d. */
  function Class(b: byte): (c: nat)
    ensures c < 12
  {
    if b < 0x80 then 0
    else if b < 0x90 then 1
    else if b < 0xA0 then 9
    else if b < 0xC0 then 7
    else if b < 0xC2 then 8
    else if b < 0xE0 then 2
    else if b == 0xE0 then 10
    else if b == 0xED then 4
    else if b < 0xF0 then 3
    else if b == 0xF0 then 11
    else if b < 0xF4 then 6
    else if b == 0xF4 then 5
    else 8
  }

  /** The other entries of utf8d, sixteen for each state. */
  const TRANSITIONS: seq<seq<nat>> := [
    [0, 1, 2, 3, 5, 8, 7, 1, 1, 1, 4, 6, 1, 1, 1, 1],
    [1, 1, 1, 1, 1, 1, 1, 1, 1, 1, 1, 1, 1, 1, 1, 1],
    [1, 0, 1, 1, 1, 1, 1, 0, 1, 0, 1, 1, 1, 1, 1, 1],
    [1, 2, 1, 1, 1, 1, 1, 2, 1, 2, 1, 1, 1, 1, 1, 1],
    [1, 1, 1, 1, 1, 1, 1, 2, 1, 1, 1, 1, 1, 1, 1, 1],
    [1, 2, 1, 1, 1, 1, 1, 1, 1, 2, 1, 1, 1, 1, 1, 1],
    [1, 1, 1, 1, 1, 1, 1, 3, 1, 3, 1, 1, 1, 1, 1, 1],
    [1, 3, 1, 1, 1, 1, 1, 3, 1, 3, 1, 1, 1, 1, 1, 1],
    [1, 3, 1, 1, 1, 1, 1, 1, 1, 1, 1, 1, 1, 1, 1, 1]
  ]

  /** 0xff >> type */
  function Mask(kind: nat): nat {
    match kind
    case 0 => 0xFF case 1 => 0x7F case 2 => 0x3F case 3 => 0x1F case 4 => 0x0F case 5 => 0x07
    case 6 => 0x03 case 7 => 0x01 case _ => 0
  }

  /** The state of `decode`: unicode_state and codepoint. */
  datatype Decoder = Decoder(state: nat, codepoint: nat)

  predicate Ok(d: Decoder) {
    d.state < 9
  }

  /** decode. A mask of ones is a remainder, and the codepoint has 32 bits. */
  function Step(d: Decoder, b: byte): (r: Decoder)
    requires Ok(d)
    ensures Ok(r)
  {
    var kind := Class(b);
    Decoder(TRANSITIONS[d.state][kind],
            if d.state != UTF8_ACCEPT then (b as nat % 64 + d.codepoint * 64) % 0x1_0000_0000
            else b as nat % (Mask(kind) + 1))
  }

  function Run(d: Decoder, bytes: seq<byte>): (r: Decoder)
    requires Ok(d)
    ensures Ok(r)
    decreases |bytes|
  {
    if bytes == [] then d else Run(Step(d, bytes[0]), bytes[1..])
  }

  // ---------------------------------------------------------------- RFC 3629

  /** The characters that UTF-8 encodes: section 3 of RFC 3629. */
  predicate IsScalar(c: nat) {
    c < 0xD800 || 0xE000 <= c < 0x11_0000
  }

  /** Their encoding: the table in section 3 of RFC 3629. */
  function Encode(c: nat): (r: seq<byte>)
    requires IsScalar(c)
  {
    if c < 0x80 then [c as byte]
    else if c < 0x800 then [(0xC0 + c / 0x40) as byte, (0x80 + c % 0x40) as byte]
    else if c < 0x1_0000 then [(0xE0 + c / 0x1000) as byte, (0x80 + c / 0x40 % 0x40) as byte, (0x80 + c % 0x40) as byte]
    else [(0xF0 + c / 0x4_0000) as byte, (0x80 + c / 0x1000 % 0x40) as byte, (0x80 + c / 0x40 % 0x40) as byte,
          (0x80 + c % 0x40) as byte]
  }

  // ---------------------------------------------------------------- the automaton accepts encodings

  /** Between the first and the last byte the automaton has neither accepted nor rejected. */
  predicate Undecided(d: Decoder, bytes: seq<byte>)
    requires Ok(d)
  {
    forall k :: 0 < k < |bytes| ==> Run(d, bytes[..k]).state != UTF8_ACCEPT && Run(d, bytes[..k]).state != UTF8_REJECT
  }

  lemma {:induction false} RunSplits(d: Decoder, a: seq<byte>, b: seq<byte>)
    requires Ok(d)
    ensures Run(d, a + b) == Run(Run(d, a), b)
    decreases |a|
  {
    if a == [] {
      assert a + b == b;
    } else {
      RunSplits(Step(d, a[0]), a[1..], b);
      assert (a + b)[1..] == a[1..] + b;
    }
  }

  lemma Run1(d: Decoder, a: byte)
    requires Ok(d)
    ensures Run(d, [a]) == Step(d, a)
  {
  }

  lemma RunMore(d: Decoder, a: seq<byte>, b: byte)
    requires Ok(d)
    ensures Run(d, a + [b]) == Step(Run(d, a), b)
  {
    RunSplits(d, a, [b]);
    Run1(Run(d, a), b);
  }

  /** How many bytes are still to come. */
  function ToCome(state: nat): nat {
    if state == 2 then 1 else if 3 <= state <= 5 then 2 else if 6 <= state <= 8 then 3 else 0
  }

  /** A step that does not reject brings the end one byte nearer. */
  lemma StepNearer(d: Decoder, b: byte)
    requires Ok(d) && d.state >= 2 && Step(d, b).state != UTF8_REJECT
    ensures ToCome(Step(d, b).state) == ToCome(d.state) - 1
    ensures Step(d, b).state == UTF8_ACCEPT <==> ToCome(d.state) == 1
  {
  }

  /** Running the encoding of a character yields it, and nothing before the last byte. */
  lemma AcceptsEncoding(c: nat, before: nat)
    requires IsScalar(c)
    ensures Run(Decoder(UTF8_ACCEPT, before), Encode(c)) == Decoder(UTF8_ACCEPT, c)
    ensures Undecided(Decoder(UTF8_ACCEPT, before), Encode(c))
  {
    var d, e := Decoder(UTF8_ACCEPT, before), Encode(c);
    if c < 0x80 {
      Run1(d, e[0]);
    } else if c < 0x800 {
      AcceptsTwo(c, before);
    } else if c < 0x1_0000 {
      AcceptsThree(c, before);
    } else {
      AcceptsFour(c, before);
    }
  }

  lemma AcceptsTwo(c: nat, before: nat)
    requires 0x80 <= c < 0x800
    ensures Run(Decoder(UTF8_ACCEPT, before), Encode(c)) == Decoder(UTF8_ACCEPT, c)
    ensures Undecided(Decoder(UTF8_ACCEPT, before), Encode(c))
  {
    var d, e := Decoder(UTF8_ACCEPT, before), Encode(c);
    Run1(d, e[0]);
    RunMore(d, [e[0]], e[1]);
    assert e == [e[0]] + [e[1]] && e[..1] == [e[0]];
  }

  /** A continuation byte adds six bits, if the state takes it. */
  lemma Continues(d: Decoder, k: nat)
    requires Ok(d) && d.state >= 2 && k < 64 && d.codepoint < 0x10_0000
    ensures Step(d, (0x80 + k) as byte).codepoint == d.codepoint * 64 + k
    ensures Step(d, (0x80 + k) as byte).state ==
            match d.state
            case 2 => 0
            case 3 => 2
            case 4 => if k >= 32 then 2 else 1
            case 5 => if k < 32 then 2 else 1
            case 6 => if k >= 16 then 3 else 1
            case 7 => 3
            case _ => if k < 16 then 3 else 1
  {
  }

  /** The first of three bytes. */
  lemma LeadOfThree(before: nat, k: nat)
    requires k < 16
    ensures Step(Decoder(UTF8_ACCEPT, before), (0xE0 + k) as byte)
              == Decoder(if k == 0 then 4 else if k == 13 then 5 else 3, k)
  {
  }

  /** The first of four bytes. */
  lemma LeadOfFour(before: nat, k: nat)
    requires k < 5
    ensures Step(Decoder(UTF8_ACCEPT, before), (0xF0 + k) as byte)
              == Decoder(if k == 0 then 6 else if k == 4 then 8 else 7, k)
  {
  }

  lemma AcceptsThree(c: nat, before: nat)
    requires 0x800 <= c < 0x1_0000 && IsScalar(c)
    ensures Run(Decoder(UTF8_ACCEPT, before), Encode(c)) == Decoder(UTF8_ACCEPT, c)
    ensures Undecided(Decoder(UTF8_ACCEPT, before), Encode(c))
  {
    hide Step, Run, Class;
    var d, k0, k1, k2 := Decoder(UTF8_ACCEPT, before), c / 0x1000, c / 0x40 % 0x40, c % 0x40;
    LeadOfThree(before, k0);
    var d0 := Step(d, (0xE0 + k0) as byte);
    Continues(d0, k1);
    var d1 := Step(d0, (0x80 + k1) as byte);
    assert d1 == Decoder(2, k0 * 64 + k1);
    Continues(d1, k2);
    RunOfThree(d, (0xE0 + k0) as byte, (0x80 + k1) as byte, (0x80 + k2) as byte);
  }

  lemma RunOfThree(d: Decoder, a: byte, b: byte, c: byte)
    requires Ok(d)
    ensures Run(d, [a, b, c][..1]) == Step(d, a)
    ensures Run(d, [a, b, c][..2]) == Step(Step(d, a), b)
    ensures Run(d, [a, b, c]) == Step(Step(Step(d, a), b), c)
  {
    Run1(d, a);
    RunMore(d, [a], b);
    RunMore(d, [a, b], c);
    assert [a, b, c][..1] == [a] && [a, b, c][..2] == [a, b] == [a] + [b] && [a, b, c] == [a, b] + [c];
  }

  lemma RunOfFour(d: Decoder, a: byte, b: byte, c: byte, e: byte)
    requires Ok(d)
    ensures Run(d, [a, b, c, e][..1]) == Step(d, a)
    ensures Run(d, [a, b, c, e][..2]) == Step(Step(d, a), b)
    ensures Run(d, [a, b, c, e][..3]) == Step(Step(Step(d, a), b), c)
    ensures Run(d, [a, b, c, e]) == Step(Step(Step(Step(d, a), b), c), e)
  {
    RunOfThree(d, a, b, c);
    RunMore(d, [a, b, c], e);
    assert [a, b, c, e][..1] == [a, b, c][..1] && [a, b, c, e][..2] == [a, b, c][..2];
    assert [a, b, c, e][..3] == [a, b, c] && [a, b, c, e] == [a, b, c] + [e];
  }

  /** The six-bit digits of a codepoint. */
  lemma Digits(c: nat)
    ensures c == (c / 0x40) * 64 + c % 0x40
    ensures c / 0x40 == (c / 0x1000) * 64 + c / 0x40 % 0x40
    ensures c / 0x1000 == (c / 0x4_0000) * 64 + c / 0x1000 % 0x40
  {
    assert c / 0x40 / 0x40 == c / 0x1000 && c / 0x1000 / 0x40 == c / 0x4_0000;
  }

  lemma AcceptsFour(c: nat, before: nat)
    requires 0x1_0000 <= c < 0x11_0000
    ensures Run(Decoder(UTF8_ACCEPT, before), Encode(c)) == Decoder(UTF8_ACCEPT, c)
    ensures Undecided(Decoder(UTF8_ACCEPT, before), Encode(c))
  {
    hide Step, Run, Class;
    var d, k0, k1, k2, k3 := Decoder(UTF8_ACCEPT, before), c / 0x4_0000, c / 0x1000 % 0x40, c / 0x40 % 0x40, c % 0x40;
    Digits(c);
    LeadOfFour(before, k0);
    var d0 := Step(d, (0xF0 + k0) as byte);
    Continues(d0, k1);
    var d1 := Step(d0, (0x80 + k1) as byte);
    assert d1 == Decoder(3, k0 * 64 + k1);
    Continues(d1, k2);
    var d2 := Step(d1, (0x80 + k2) as byte);
    assert d2 == Decoder(2, (k0 * 64 + k1) * 64 + k2);
    Continues(d2, k3);
    RunOfFour(d, (0xF0 + k0) as byte, (0x80 + k1) as byte, (0x80 + k2) as byte, (0x80 + k3) as byte);
  }

  // ---------------------------------------------------------------- and nothing else

  lemma {:induction false} RejectStays(d: Decoder, bytes: seq<byte>)
    requires d.state == UTF8_REJECT
    ensures Run(d, bytes).state == UTF8_REJECT
    decreases |bytes|
  {
    if bytes != [] {
      RejectStays(Step(d, bytes[0]), bytes[1..]);
    }
  }

  /** `bytes` lead back to ACCEPT for the first time. */
  predicate FirstAccepts(d: Decoder, bytes: seq<byte>)
    requires Ok(d)
  {
    && bytes != [] && Run(d, bytes).state == UTF8_ACCEPT
    && forall k :: 0 < k < |bytes| ==> Run(d, bytes[..k]).state != UTF8_ACCEPT
  }

  /** The rest of such bytes after the first one. */
  lemma AfterFirst(d: Decoder, bytes: seq<byte>)
    requires Ok(d) && FirstAccepts(d, bytes)
    ensures if |bytes| == 1 then Step(d, bytes[0]).state == UTF8_ACCEPT
            else Step(d, bytes[0]).state >= 2 && FirstAccepts(Step(d, bytes[0]), bytes[1..])
  {
    if |bytes| == 1 {
      assert bytes == [bytes[0]];
      Run1(d, bytes[0]);
    } else {
      var e := Step(d, bytes[0]);
      assert bytes[..1] == [bytes[0]];
      Run1(d, bytes[0]);
      if e.state == UTF8_REJECT {
        RejectStays(e, bytes[1..]);
      }
      forall k | 0 < k < |bytes[1..]|
        ensures Run(e, bytes[1..][..k]).state != UTF8_ACCEPT
      {
        assert bytes[..k + 1] == [bytes[0]] + bytes[1..][..k];
        RunSplits(d, [bytes[0]], bytes[1..][..k]);
      }
    }
  }

  /** A byte that a state in the middle takes is a continuation byte. */
  lemma IsContinuation(d: Decoder, b: byte)
    requires Ok(d) && d.state >= 2 && Step(d, b).state != UTF8_REJECT
    ensures 0x80 <= b < 0xC0 && b == (0x80 + b as nat % 64) as byte
  {
  }

  /** The first byte and the state after it. */
  lemma Leads(d: Decoder, b: byte)
    requires d.state == UTF8_ACCEPT && Step(d, b).state != UTF8_REJECT
    ensures var e := Step(d, b);
            match ToCome(e.state)
            case 0 => b < 0x80 && e.codepoint == b as nat
            case 1 => 0xC2 <= b < 0xE0 && e == Decoder(2, b as nat - 0xC0)
            case 2 =>
              0xE0 <= b < 0xF0
              && e == Decoder(if b == 0xE0 then 4 else if b == 0xED then 5 else 3, b as nat - 0xE0)
            case _ =>
              0xF0 <= b < 0xF5
              && e == Decoder(if b == 0xF0 then 6 else if b == 0xF4 then 8 else 7, b as nat - 0xF0)
  {
  }

  /** What accepting two, three and four bytes says about them. */
  lemma OfTwo(d: Decoder, a: byte, b: byte)
    requires d.state == UTF8_ACCEPT && FirstAccepts(d, [a, b])
    ensures 0xC2 <= a < 0xE0 && 0x80 <= b < 0xC0
    ensures Run(d, [a, b]).codepoint == (a as nat - 0xC0) * 64 + (b as nat - 0x80)
  {
    AfterFirst(d, [a, b]);
    assert [a, b][1..] == [b];
    AfterFirst(Step(d, a), [b]);
    Leads(d, a);
    IsContinuation(Step(d, a), b);
    StepNearer(Step(d, a), b);
    Continues(Step(d, a), b as nat - 0x80);
    Run1(d, a);
    RunMore(d, [a], b);
    assert [a, b] == [a] + [b];
  }

  lemma OfThree(d: Decoder, a: byte, b: byte, c: byte)
    requires d.state == UTF8_ACCEPT && FirstAccepts(d, [a, b, c])
    ensures 0xE0 <= a < 0xF0 && 0x80 <= b < 0xC0 && 0x80 <= c < 0xC0
    ensures (a == 0xE0 ==> b >= 0xA0) && (a == 0xED ==> b < 0xA0)
    ensures Run(d, [a, b, c]).codepoint == ((a as nat - 0xE0) * 64 + (b as nat - 0x80)) * 64 + (c as nat - 0x80)
  {
    var d0 := Step(d, a);
    var d1 := Step(d0, b);
    AfterFirst(d, [a, b, c]);
    assert [a, b, c][1..] == [b, c];
    AfterFirst(d0, [b, c]);
    assert [b, c][1..] == [c];
    AfterFirst(d1, [c]);
    Leads(d, a);
    IsContinuation(d0, b);
    IsContinuation(d1, c);
    StepNearer(d0, b);
    StepNearer(d1, c);
    Continues(d0, b as nat - 0x80);
    Continues(d1, c as nat - 0x80);
    RunOfThree(d, a, b, c);
  }

  lemma OfFour(d: Decoder, a: byte, b: byte, c: byte, e: byte)
    requires d.state == UTF8_ACCEPT && FirstAccepts(d, [a, b, c, e])
    ensures 0xF0 <= a < 0xF5 && 0x80 <= b < 0xC0 && 0x80 <= c < 0xC0 && 0x80 <= e < 0xC0
    ensures (a == 0xF0 ==> b >= 0x90) && (a == 0xF4 ==> b < 0x90)
    ensures Run(d, [a, b, c, e]).codepoint
              == (((a as nat - 0xF0) * 64 + (b as nat - 0x80)) * 64 + (c as nat - 0x80)) * 64 + (e as nat - 0x80)
  {
    var d0 := Step(d, a);
    var d1 := Step(d0, b);
    var d2 := Step(d1, c);
    AfterFirst(d, [a, b, c, e]);
    assert [a, b, c, e][1..] == [b, c, e];
    AfterFirst(d0, [b, c, e]);
    assert [b, c, e][1..] == [c, e];
    AfterFirst(d1, [c, e]);
    assert [c, e][1..] == [e];
    AfterFirst(d2, [e]);
    Leads(d, a);
    IsContinuation(d0, b);
    IsContinuation(d1, c);
    IsContinuation(d2, e);
    StepNearer(d0, b);
    StepNearer(d1, c);
    StepNearer(d2, e);
    Continues(d0, b as nat - 0x80);
    Continues(d1, c as nat - 0x80);
    Continues(d2, e as nat - 0x80);
    RunOfFour(d, a, b, c, e);
  }

  /** The number of bytes is settled by the first one. */
  lemma {:induction false} LengthIs(d: Decoder, bytes: seq<byte>)
    requires Ok(d) && d.state >= 2 && FirstAccepts(d, bytes)
    ensures |bytes| == ToCome(d.state)
    decreases |bytes|
  {
    AfterFirst(d, bytes);
    StepNearer(d, bytes[0]);
    if |bytes| > 1 {
      LengthIs(Step(d, bytes[0]), bytes[1..]);
    }
  }

  /** Six-bit digits put together come apart again. */
  lemma DigitsOf(k0: nat, k1: nat, k2: nat, k3: nat)
    requires k1 < 64 && k2 < 64 && k3 < 64
    ensures var c := ((k0 * 64 + k1) * 64 + k2) * 64 + k3;
            c / 0x4_0000 == k0 && c / 0x1000 % 0x40 == k1 && c / 0x40 % 0x40 == k2 && c % 0x40 == k3
              && c / 0x1000 == k0 * 64 + k1
  {
    var c := ((k0 * 64 + k1) * 64 + k2) * 64 + k3;
    assert c / 0x40 == (k0 * 64 + k1) * 64 + k2;
    assert c / 0x1000 == k0 * 64 + k1;
  }

  /** Whatever first leads back to ACCEPT is the encoding of the codepoint it yields. */
  lemma AcceptedIsEncoding(before: nat, bytes: seq<byte>)
    requires FirstAccepts(Decoder(UTF8_ACCEPT, before), bytes)
    ensures var c := Run(Decoder(UTF8_ACCEPT, before), bytes).codepoint;
            IsScalar(c) && bytes == Encode(c)
  {
    var d := Decoder(UTF8_ACCEPT, before);
    AfterFirst(d, bytes);
    Leads(d, bytes[0]);
    hide Step, Class;
    if |bytes| == 1 {
      assert bytes == [bytes[0]];
      Run1(d, bytes[0]);
    } else {
      LengthIs(Step(d, bytes[0]), bytes[1..]);
      if |bytes| == 2 {
        assert bytes == [bytes[0], bytes[1]];
        OfTwo(d, bytes[0], bytes[1]);
        DigitsOf(0, 0, bytes[0] as nat - 0xC0, bytes[1] as nat - 0x80);
      } else if |bytes| == 3 {
        assert bytes == [bytes[0], bytes[1], bytes[2]];
        OfThree(d, bytes[0], bytes[1], bytes[2]);
        DigitsOf(0, bytes[0] as nat - 0xE0, bytes[1] as nat - 0x80, bytes[2] as nat - 0x80);
      } else {
        assert bytes == [bytes[0], bytes[1], bytes[2], bytes[3]];
        OfFour(d, bytes[0], bytes[1], bytes[2], bytes[3]);
        DigitsOf(bytes[0] as nat - 0xF0, bytes[1] as nat - 0x80, bytes[2] as nat - 0x80, bytes[3] as nat - 0x80);
      }
    }
  }
}
