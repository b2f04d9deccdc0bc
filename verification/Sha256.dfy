/**
 The streaming implementation: a context of running totals, hash state and a block buffer, all
 updated in place, proved to compute the digest of the standard however the message is cut.
 */
module Sha256 {
  import opened Sha256Standard
  import opened Sha256Words

  // ---------------------------------------------------------------------------------------
  // The round macros.
  // ---------------------------------------------------------------------------------------

  /** The macro P's temporaries, from the values in its argument cells. */
  function Temp1(e: Word32, f: Word32, g: Word32, h: Word32, k: Word32, x: Word32): Word32 {
    Add(Add(Add(Add(h, BigSigma1(e)), F1(e, f, g)), k), x)
  }

  function Temp2(a: Word32, b: Word32, c: Word32): Word32 { Add(BigSigma0(a), F0(a, b, c)) }

  lemma TempsAreStandard(v: Vars, k: Word32, x: Word32)
    ensures Temp1(v.e, v.f, v.g, v.h, k, x) == T1(v.e, v.f, v.g, v.h, k, x)
    ensures Temp2(v.a, v.b, v.c) == T2(v.a, v.b, v.c)
  {
    hide Add, BigSigma0, BigSigma1, Ch, Maj, F0, F1;
    F1IsCh(v.e, v.f, v.g);
    F0IsMaj(v.a, v.b, v.c);
  }

  /** The array cell that plays working variable `j` after the roles have moved `r` places. */
  function Cell(j: nat, r: nat): (i: nat)
    requires j < 8 && r <= 8
    ensures i < 8
  {
    if j < r then j + 8 - r else j - r
  }

  /** Moving the roles on by one makes each variable's cell the next variable's, and h's cell a's. */
  lemma CellsMove(r: nat)
    requires r < 8
    ensures Cell(0, r + 1) == Cell(7, r) && Cell(1, r + 1) == Cell(0, r) && Cell(2, r + 1) == Cell(1, r)
    ensures Cell(3, r + 1) == Cell(2, r) && Cell(4, r + 1) == Cell(3, r) && Cell(5, r + 1) == Cell(4, r)
    ensures Cell(6, r + 1) == Cell(5, r) && Cell(7, r + 1) == Cell(6, r)
    ensures forall j, k :: 0 <= j < k < 8 ==> Cell(j, r) != Cell(k, r)
  {
  }

  /** Reads the eight working variables when their roles have moved by `r` places. */
  function View(s: seq<Word32>, r: nat): Vars
    requires |s| == 8 && r <= 8
  {
    Vars(s[Cell(0, r)], s[Cell(1, r)], s[Cell(2, r)], s[Cell(3, r)],
         s[Cell(4, r)], s[Cell(5, r)], s[Cell(6, r)], s[Cell(7, r)])
  }

  /** The macro P on the array cells named by the eight indices: only the cells in the roles of
      d and h change, and seen from the next role assignment that is one round. */
  method P(A: array<Word32>, a: nat, b: nat, c: nat, d: nat, e: nat, f: nat, g: nat, h: nat, x: Word32, k: Word32,
           ghost r: nat)
    requires A.Length == 8 && r < 8
    requires a == Cell(0, r) && b == Cell(1, r) && c == Cell(2, r) && d == Cell(3, r)
    requires e == Cell(4, r) && f == Cell(5, r) && g == Cell(6, r) && h == Cell(7, r)
    modifies A
    ensures View(A[..], r + 1) == Round(old(View(A[..], r)), k, x)
  {
    hide Temp1, Temp2, T1, T2, Add, Cell;
    CellsMove(r);
    TempsAreStandard(View(A[..], r), k, x);
    var temp1 := Temp1(A[e], A[f], A[g], A[h], k, x);
    var temp2 := Temp2(A[a], A[b], A[c]);
    A[d] := Add(A[d], temp1);
    A[h] := Add(temp1, temp2);
  }

  // ---------------------------------------------------------------------------------------
  // Processing one block.
  // ---------------------------------------------------------------------------------------

  ghost predicate Scheduled(W: seq<Word32>, m: Block, t: nat)
    requires t <= |W|
  {
    forall i :: 0 <= i < t ==> W[i] == Schedule(m, i)
  }

  /** The macro GET_UINT32_BE for the first sixteen schedule words. */
  method LoadWord(W: array<Word32>, t: nat, data: Block)
    requires W.Length == 64 && t < 16 && Scheduled(W[..], data, t)
    modifies W
    ensures Scheduled(W[..], data, t + 1)
  {
    hide WordOf;
    W[t] := WordOf(data[4 * t], data[4 * t + 1], data[4 * t + 2], data[4 * t + 3]);
  }

  /** The macro R. */
  method R(W: array<Word32>, t: nat, ghost data: Block) returns (x: Word32)
    requires W.Length == 64 && 16 <= t < 64 && Scheduled(W[..], data, t)
    modifies W
    ensures Scheduled(W[..], data, t + 1) && x == Schedule(data, t)
  {
    hide Add, SmallSigma0, SmallSigma1, WordOf;
    W[t] := Add(Add(Add(SmallSigma1(W[t - 2]), W[t - 7]), SmallSigma0(W[t - 15])), W[t - 16]);
    x := W[t];
  }

  function VarsOf(s: seq<Word32>): Vars
    requires |s| == 8
  {
    Vars(s[0], s[1], s[2], s[3], s[4], s[5], s[6], s[7])
  }

  lemma FullTurn(s: seq<Word32>)
    requires |s| == 8
    ensures View(s, 0) == VarsOf(s) == View(s, 8)
  {
  }

  lemma NextRound(v: Vars, m: Block, t: nat)
    requires t < 64
    ensures Rounds(v, m, t + 1) == Round(Rounds(v, m, t), K[t], Schedule(m, t))
  {
  }

  /** `P(a, ..., h, W[t], K[t])`. */
  method LoadedRound(A: array<Word32>, W: array<Word32>, a: nat, b: nat, c: nat, d: nat, e: nat, f: nat, g: nat, h: nat,
                     t: nat, ghost r: nat, ghost data: Block, ghost v: Vars)
    requires A.Length == 8 && W.Length == 64 && A != W && r < 8 && t < 16
    requires a == Cell(0, r) && b == Cell(1, r) && c == Cell(2, r) && d == Cell(3, r)
    requires e == Cell(4, r) && f == Cell(5, r) && g == Cell(6, r) && h == Cell(7, r)
    requires Scheduled(W[..], data, 16) && View(A[..], r) == Rounds(v, data, t)
    modifies A
    ensures View(A[..], r + 1) == Rounds(v, data, t + 1)
  {
    hide Round, Schedule, Rounds, View, Cell;
    P(A, a, b, c, d, e, f, g, h, W[t], K[t], r);
    NextRound(v, data, t);
  }

  /** The eight-way unrolled rounds with rotating roles, on the words of the block itself. */
  method FirstRounds(A: array<Word32>, W: array<Word32>, ghost data: Block)
    requires A.Length == 8 && W.Length == 64 && A != W && Scheduled(W[..], data, 16)
    modifies A
    ensures VarsOf(A[..]) == Rounds(old(VarsOf(A[..])), data, 16)
  {
    hide Round, Schedule, Rounds, View, VarsOf, Cell, Scheduled;
    ghost var v, w := VarsOf(A[..]), W[..];
    FullTurn(A[..]);
    RoleTable();
    NoRounds(v, data);
    var i := 0;
    while i < 16
      invariant 0 <= i <= 16 && i % 8 == 0 && W[..] == w
      invariant View(A[..], 0) == Rounds(v, data, i)
    {
      LoadedRound(A, W, 0, 1, 2, 3, 4, 5, 6, 7, i + 0, 0, data, v);
      LoadedRound(A, W, 7, 0, 1, 2, 3, 4, 5, 6, i + 1, 1, data, v);
      LoadedRound(A, W, 6, 7, 0, 1, 2, 3, 4, 5, i + 2, 2, data, v);
      LoadedRound(A, W, 5, 6, 7, 0, 1, 2, 3, 4, i + 3, 3, data, v);
      LoadedRound(A, W, 4, 5, 6, 7, 0, 1, 2, 3, i + 4, 4, data, v);
      LoadedRound(A, W, 3, 4, 5, 6, 7, 0, 1, 2, i + 5, 5, data, v);
      LoadedRound(A, W, 2, 3, 4, 5, 6, 7, 0, 1, i + 6, 6, data, v);
      LoadedRound(A, W, 1, 2, 3, 4, 5, 6, 7, 0, i + 7, 7, data, v);
      FullTurn(A[..]);
      i := i + 8;
    }
    FullTurn(A[..]);
  }

  /** `P(a, ..., h, R(t), K[t])`: the schedule word is stored and used in one go. */
  method ScheduledRound(A: array<Word32>, W: array<Word32>,
                        a: nat, b: nat, c: nat, d: nat, e: nat, f: nat, g: nat, h: nat, t: nat,
                        ghost r: nat, ghost data: Block, ghost v: Vars)
    requires A.Length == 8 && W.Length == 64 && A != W && r < 8 && 16 <= t < 64
    requires a == Cell(0, r) && b == Cell(1, r) && c == Cell(2, r) && d == Cell(3, r)
    requires e == Cell(4, r) && f == Cell(5, r) && g == Cell(6, r) && h == Cell(7, r)
    requires Scheduled(W[..], data, t) && View(A[..], r) == Rounds(v, data, t)
    modifies A, W
    ensures Scheduled(W[..], data, t + 1) && View(A[..], r + 1) == Rounds(v, data, t + 1)
  {
    hide Round, Schedule, Rounds, View, Cell, Scheduled;
    ghost var cells := A[..];
    var x := R(W, t, data);
    assert A[..] == cells;
    ghost var words := W[..];
    P(A, a, b, c, d, e, f, g, h, x, K[t], r);
    assert W[..] == words;
    NextRound(v, data, t);
  }

  /** Eight rounds, one for each role assignment. */
  method EightRounds(A: array<Word32>, W: array<Word32>, i: nat, ghost data: Block, ghost v: Vars)
    requires A.Length == 8 && W.Length == 64 && A != W && 16 <= i <= 56
    requires Scheduled(W[..], data, i) && View(A[..], 0) == Rounds(v, data, i)
    modifies A, W
    ensures Scheduled(W[..], data, i + 8) && View(A[..], 0) == Rounds(v, data, i + 8)
  {
    hide Round, Schedule, Rounds, View, VarsOf, Scheduled;
    ScheduledRound(A, W, 0, 1, 2, 3, 4, 5, 6, 7, i + 0, 0, data, v);
    ScheduledRound(A, W, 7, 0, 1, 2, 3, 4, 5, 6, i + 1, 1, data, v);
    ScheduledRound(A, W, 6, 7, 0, 1, 2, 3, 4, 5, i + 2, 2, data, v);
    ScheduledRound(A, W, 5, 6, 7, 0, 1, 2, 3, 4, i + 3, 3, data, v);
    ScheduledRound(A, W, 4, 5, 6, 7, 0, 1, 2, 3, i + 4, 4, data, v);
    ScheduledRound(A, W, 3, 4, 5, 6, 7, 0, 1, 2, i + 5, 5, data, v);
    ScheduledRound(A, W, 2, 3, 4, 5, 6, 7, 0, 1, i + 6, 6, data, v);
    ScheduledRound(A, W, 1, 2, 3, 4, 5, 6, 7, 0, i + 7, 7, data, v);
    FullTurn(A[..]);
  }

  /** The same rounds for the rest of the schedule, each word computed as it is used. */
  method LaterRounds(A: array<Word32>, W: array<Word32>, ghost data: Block, ghost v: Vars)
    requires A.Length == 8 && W.Length == 64 && A != W && Scheduled(W[..], data, 16)
    requires VarsOf(A[..]) == Rounds(v, data, 16)
    modifies A, W
    ensures VarsOf(A[..]) == Rounds(v, data, 64)
  {
    hide Round, Schedule, Rounds, View, VarsOf, Scheduled;
    FullTurn(A[..]);
    var i := 16;
    while i < 64
      invariant 16 <= i <= 64 && i % 8 == 0 && Scheduled(W[..], data, i)
      invariant View(A[..], 0) == Rounds(v, data, i)
    {
      EightRounds(A, W, i, data, v);
      i := i + 8;
    }
    FullTurn(A[..]);
  }

  /** The role assignments written out in the unrolled rounds. */
  lemma RoleTable()
    ensures forall j, r :: 0 <= j < 8 && 0 <= r <= 8 ==> Cell(j, r) == if j < r then j + 8 - r else j - r
  {
  }

  lemma NoRounds(v: Vars, m: Block)
    ensures Rounds(v, m, 0) == v
  {
  }

  lemma NothingScheduled(w: seq<Word32>, m: Block)
    ensures Scheduled(w, m, 0)
  {
  }

  lemma WordAt(w: seq<Word32>, m: Block, t: nat)
    requires t < |w| && Scheduled(w, m, t + 1)
    ensures w[t] == Schedule(m, t)
  {
  }

  method RoundsUnrolled(A: array<Word32>, data: Block)
    requires A.Length == 8
    modifies A
    ensures VarsOf(A[..]) == Rounds(old(VarsOf(A[..])), data, 64)
  {
    hide Round, Schedule, Rounds, View;
    ghost var v := VarsOf(A[..]);
    var W := new Word32[64];
    var i := 0;
    while i < 16
      invariant 0 <= i <= 16 && Scheduled(W[..], data, i)
      modifies W
    {
      LoadWord(W, i, data);
      i := i + 1;
    }
    ghost var words := W[..];
    FirstRounds(A, W, data);
    assert W[..] == words;
    LaterRounds(A, W, data, v);
  }

  /** Every variable moves one cell, instead of its role moving. */
  method MoveCells(A: array<Word32>)
    requires A.Length == 8
    modifies A
    ensures VarsOf(A[..]) == old(View(A[..], 1))
  {
    var temp1 := A[7];
    A[7] := A[6];
    A[6] := A[5];
    A[5] := A[4];
    A[4] := A[3];
    A[3] := A[2];
    A[2] := A[1];
    A[1] := A[0];
    A[0] := temp1;
  }

  /** The compact form of the rounds: one round a turn, then every variable moves one cell. */
  method RoundsCompact(A: array<Word32>, data: Block)
    requires A.Length == 8
    modifies A
    ensures VarsOf(A[..]) == Rounds(old(VarsOf(A[..])), data, 64)
  {
    hide Round, Schedule, Rounds, VarsOf, View, Scheduled, Cell;
    ghost var v := VarsOf(A[..]);
    NoRounds(v, data);
    RoleTable();
    var W := new Word32[64];
    NothingScheduled(W[..], data);
    var i := 0;
    while i < 64
      invariant 0 <= i <= 64 && Scheduled(W[..], data, i)
      invariant VarsOf(A[..]) == Rounds(v, data, i)
    {
      ghost var cells := A[..];
      if i < 16 {
        LoadWord(W, i, data);
      } else {
        var _ := R(W, i, data);
      }
      assert A[..] == cells;
      ghost var words := W[..];
      WordAt(words, data, i);
      FullTurn(cells);
      P(A, 0, 1, 2, 3, 4, 5, 6, 7, W[i], K[i], 0);
      NextRound(v, data, i);
      MoveCells(A);
      assert W[..] == words;
      i := i + 1;
    }
  }

  // ---------------------------------------------------------------------------------------
  // The context.
  // ---------------------------------------------------------------------------------------

  const WORD := 0x1_0000_0000

  /** The bytes of the constant sha256_padding. */
  function Padding(n: nat): (s: seq<Byte>)
    requires 1 <= n <= 64
    ensures |s| == n
  {
    [0x80] + seq(n - 1, i => 0)
  }

  /** The last loop of the block function. */
  method AddTo(state: array<Word32>, A: array<Word32>)
    requires state != A && state.Length == A.Length == 8
    modifies state
    ensures VarsOf(state[..]) == Plus(old(VarsOf(state[..])), VarsOf(A[..]))
  {
    hide Add;
    ghost var s := state[..];
    var i := 0;
    while i < 8
      invariant 0 <= i <= 8
      invariant forall j :: 0 <= j < i ==> state[j] == Add(s[j], A[j])
      invariant forall j :: i <= j < 8 ==> state[j] == s[j]
    {
      state[i] := Add(state[i], A[i]);
      i := i + 1;
    }
  }

  class Context {
    var total0: nat
    var total1: nat
    const state: array<Word32>
    const buffer: array<Byte>
    var is224: bool
    /** Everything hashed since `Starts`. */
    ghost var hashed: seq<Byte>

    ghost predicate Valid()
      reads this, state, buffer
    {
      && state.Length == 8 && buffer.Length == 64
      && total0 < WORD && total1 < WORD
      && total1 * WORD + total0 == |hashed| % (WORD * WORD)
      && VarsOf(state[..]) == Absorb(InitialValue(is224), hashed)
      && buffer[..|hashed| % 64] == Tail(hashed)
    }

    constructor ()
      ensures fresh(state) && fresh(buffer) && state.Length == 8 && buffer.Length == 64
    {
      state := new Word32[8](i => 0);
      buffer := new Byte[64](i => 0);
      total0, total1, is224, hashed := 0, 0, false, [];
    }

    method Starts(is224: bool)
      requires state.Length == 8 && buffer.Length == 64
      modifies this, state
      ensures Valid() && hashed == [] && this.is224 == is224
    {
      total0, total1 := 0, 0;
      if !is224 {
        state[0], state[1], state[2], state[3] := 0x6A09E667, 0xBB67AE85, 0x3C6EF372, 0xA54FF53A;
        state[4], state[5], state[6], state[7] := 0x510E527F, 0x9B05688C, 0x1F83D9AB, 0x5BE0CD19;
      } else {
        state[0], state[1], state[2], state[3] := 0xC1059ED8, 0x367CD507, 0x3070DD17, 0xF70E5939;
        state[4], state[5], state[6], state[7] := 0xFFC00B31, 0x68581511, 0x64F98FA7, 0xBEFA4FA4;
      }
      this.is224 := is224;
      hashed := [];
    }

    /** Folds one block into the state. */
    method Process(data: Block)
      requires state.Length == 8
      modifies state
      ensures VarsOf(state[..]) == Compress(old(VarsOf(state[..])), data)
    {
      hide Rounds, Add;
      var A := new Word32[8](i requires 0 <= i < 8 reads state => state[i]);
      ghost var s := state[..];
      assert A[..] == s;
      RoundsUnrolled(A, data);
      assert state[..] == s;
      AddTo(state, A);
    }

    /** The running total, with the carry between its two words. */
    method AddToTotal(ilen: nat)
      requires total0 < WORD && total1 < WORD && ilen < WORD
      modifies this`total0, this`total1
      ensures total0 < WORD && total1 < WORD
      ensures total1 * WORD + total0 == old(total1 * WORD + total0 + ilen) % (WORD * WORD)
    {
      total0 := (total0 + ilen) % WORD;
      if total0 < ilen {
        total1 := (total1 + 1) % WORD;
      }
    }

    /** Hashes more of the message: fill up the buffer, take whole blocks straight from the
        input, keep the rest in the buffer. */
    method Update(input: seq<Byte>)
      requires Valid() && |input| < WORD
      modifies this, state, buffer
      ensures Valid() && hashed == old(hashed) + input && is224 == old(is224)
    {
      hide Absorb, InitialValue, Compress, VarsOf, Tail;
      if |input| == 0 {
        assert hashed + input == hashed;
        return;
      }
      var left := total0 % 64;
      TotalModBlock(total0, total1, |hashed|);
      ghost var h, target := VarsOf(state[..]), Tail(hashed) + input;
      AbsorbAppend(InitialValue(is224), hashed, input);
      AddToTotal(|input|);
      TotalOfSum(|hashed|, |input|);
      var rest := input;
      ghost var kept := Tail(hashed);
      rest, left, kept := TopUp(input, left, h, kept);
      rest := WholeInput(rest, h, target, kept);
      if |rest| > 0 {
        CopyInto(buffer, left, rest);
      } else {
        assert kept + rest == kept;
      }
      hashed := hashed + input;
      NothingLeft(VarsOf(state[..]), kept + rest);
    }

    /** Pads, hashes the padding and the length, and writes out the state. */
    method Finish(output: array<Byte>)
      requires Valid() && output.Length == 32 && output != buffer
      modifies this, state, buffer, output
      ensures output[..if is224 then 28 else 32] == Digest(old(hashed), is224) && is224 == old(is224)
      ensures is224 ==> output[28..] == old(output[28..])
    {
      hide Absorb, InitialValue, ByteWord, Length64, Pad, VarsOf, Tail, BytesOf;
      ghost var msg, rest := hashed, output[28..];
      var high := total0 / 0x2000_0000 + (total1 * 8) % WORD;
      var low := (total0 * 8) % WORD;
      LengthWords(total0, total1, |msg|);
      LengthBytes(high, low, 8 * |msg| % (WORD * WORD));
      var msglen := ByteWord(high) + ByteWord(low);
      var last := total0 % 64;
      TotalModBlock(total0, total1, |msg|);
      var padn := if last < 56 then 56 - last else 120 - last;
      PaddingIsStandard(msg, padn);
      Update(Padding(padn));
      Update(msglen);
      assert hashed == Pad(msg);
      assert output[28..] == rest;
      WriteOut(output, VarsOf(state[..]));
    }

    method WriteOut(output: array<Byte>, ghost h: Vars)
      requires state.Length == 8 && output.Length == 32 && VarsOf(state[..]) == h
      modifies output
      ensures output[..28] == BytesOf(h.a) + BytesOf(h.b) + BytesOf(h.c) + BytesOf(h.d) + BytesOf(h.e) +
              BytesOf(h.f) + BytesOf(h.g)
      ensures output[28..] == if is224 then old(output[28..]) else BytesOf(h.h)
    {
      hide BytesOf;
      ghost var rest := output[28..];
      NoBytes(output);
      PutWord(output, 0, state[0], [], rest);
      ghost var done := BytesOf(h.a);
      assert [] + done == done;
      PutWord(output, 4, state[1], done, rest);
      done := done + BytesOf(h.b);
      PutWord(output, 8, state[2], done, rest);
      done := done + BytesOf(h.c);
      PutWord(output, 12, state[3], done, rest);
      done := done + BytesOf(h.d);
      PutWord(output, 16, state[4], done, rest);
      done := done + BytesOf(h.e);
      PutWord(output, 20, state[5], done, rest);
      done := done + BytesOf(h.f);
      PutWord(output, 24, state[6], done, rest);
      done := done + BytesOf(h.g);
      if !is224 {
        LastWord(output, state[7], done);
      }
    }

    /** If the input completes the block in the buffer, that block goes first. */
    method TopUp(input: seq<Byte>, left: nat, ghost h: Vars, ghost pending: seq<Byte>)
      returns (rest: seq<Byte>, left': nat, ghost kept: seq<Byte>)
      requires state.Length == 8 && buffer.Length == 64 && left == |pending| < 64 && buffer[..left] == pending
      requires VarsOf(state[..]) == h
      modifies state, buffer
      ensures left' == |kept| < 64 && buffer[..left'] == kept
      ensures kept == [] || |kept| + |rest| < 64
      ensures Absorb(VarsOf(state[..]), kept + rest) == Absorb(h, pending + input)
      ensures Tail(kept + rest) == Tail(pending + input)
    {
      hide Absorb, Compress, VarsOf, Tail;
      var fill := 64 - left;
      rest, left', kept := input, left, pending;
      if left > 0 && |input| >= fill {
        CopyInto(buffer, left, input[..fill]);
        rest, left', kept := input[fill..], 0, [];
        assert buffer[..] == buffer[..64] == pending + input[..fill];
        assert buffer[..] + rest == pending + input;
        AbsorbBlock(h, buffer[..], rest);
        Process(buffer[..]);
        assert kept + rest == rest;
      }
    }

    /** The middle loop: blocks taken straight from the input. `target` is all there is to absorb
        from hash value `h`, of which `kept` sits in the buffer. */
    method WholeInput(input: seq<Byte>, ghost h: Vars, ghost target: seq<Byte>, ghost kept: seq<Byte>)
      returns (rest: seq<Byte>)
      requires state.Length == 8
      requires kept == [] || |kept| + |input| < 64
      requires Absorb(VarsOf(state[..]), kept + input) == Absorb(h, target)
      requires Tail(kept + input) == Tail(target)
      modifies state
      ensures |kept| + |rest| < 64
      ensures Absorb(VarsOf(state[..]), kept + rest) == Absorb(h, target)
      ensures Tail(kept + rest) == Tail(target)
      ensures kept != [] ==> rest == input
    {
      hide Absorb, Compress, VarsOf, Tail;
      rest := input;
      while |rest| >= 64
        invariant kept == [] || rest == input
        invariant Absorb(VarsOf(state[..]), kept + rest) == Absorb(h, target)
        invariant Tail(kept + rest) == Tail(target)
        decreases |rest|
      {
        assert kept + rest == rest;
        assert rest[..64] + rest[64..] == rest;
        AbsorbBlock(VarsOf(state[..]), rest[..64], rest[64..]);
        Process(rest[..64]);
        rest := rest[64..];
        assert kept + rest == rest;
      }
    }
  }

  /** The eight length bytes come out as the standard's 64-bit length, rebuilt from two words. */
  lemma LengthWords(total0: nat, total1: nat, n: nat)
    requires total0 < WORD && total1 < WORD && total1 * WORD + total0 == n % (WORD * WORD)
    ensures var high, low := total0 / 0x2000_0000 + (total1 * 8) % WORD, (total0 * 8) % WORD;
      high < WORD && high * WORD + low == 8 * n % (WORD * WORD)
  {
    var k := n / (WORD * WORD);
    assert n == k * (WORD * WORD) + total1 * WORD + total0;
    var c, e := total0 / 0x2000_0000, total1 / 0x2000_0000;
    ShiftOut(total0);
    ShiftOut(total1);
    var high := c + (total1 * 8) % WORD;
    ModIs(8 * n, 8 * k + e, high * WORD + (total0 * 8) % WORD);
  }

  lemma ShiftOut(x: nat)
    requires x < WORD
    ensures x * 8 == x / 0x2000_0000 * WORD + (x * 8) % WORD
    ensures x / 0x2000_0000 < 8 && (x * 8) % WORD <= WORD - 8
  {
    var l := x % 0x2000_0000;
    assert x == x / 0x2000_0000 * 0x2000_0000 + l;
    assert (x * 8) % WORD == l * 8;
  }

  lemma ModIs(z: int, k: int, r: int)
    requires z == k * (WORD * WORD) + r && 0 <= r < WORD * WORD
    ensures z % (WORD * WORD) == r
  {
  }

  lemma LengthBytes(high: nat, low: nat, len: nat)
    requires high < WORD && low < WORD && len == high * WORD + low
    ensures ByteWord(high) + ByteWord(low) == Length64(len)
  {
    assert len / WORD == high && len % WORD == low;
  }

  /** The padding chosen by `finish` is the standard's. */
  lemma PaddingIsStandard(msg: seq<Byte>, padn: nat)
    requires var last := |msg| % 64; padn == if last < 56 then 56 - last else 120 - last
    ensures 1 <= padn <= 64
    ensures msg + Padding(padn) + Length64(8 * |msg| % 0x1_0000_0000_0000_0000) == Pad(msg)
  {
    assert padn == 1 + ZeroCount(|msg|);
    assert Padding(padn) == [0x80] + seq(ZeroCount(|msg|), i => 0);
  }

  /** Taking the first block off what is to be absorbed. */
  lemma AbsorbBlock(h: Vars, m: Block, more: seq<Byte>)
    ensures Absorb(h, m + more) == Absorb(Compress(h, m), more)
    ensures Tail(m + more) == Tail(more)
  {
    assert (m + more)[..64] == m && (m + more)[64..] == more;
    TailOfConcat(m, more);
  }

  lemma NothingLeft(h: Vars, data: seq<Byte>)
    requires |data| < 64
    ensures Absorb(h, data) == h && Tail(data) == data
  {
  }

  lemma TotalModBlock(total0: nat, total1: nat, n: nat)
    requires total1 * WORD + total0 == n % (WORD * WORD)
    ensures total0 % 64 == n % 64
  {
    var k := n / (WORD * WORD);
    assert n == k * (WORD * WORD) + total1 * WORD + total0;
    DropMultiple(k * 0x400_0000_0000_0000 + total1 * 0x400_0000, total0);
  }

  lemma DropMultiple(a: int, b: int)
    ensures (a * 64 + b) % 64 == b % 64
  {
  }

  lemma TotalOfSum(n: nat, more: nat)
    ensures (n % (WORD * WORD) + more) % (WORD * WORD) == (n + more) % (WORD * WORD)
  {
  }

  lemma NoBytes(a: array<Byte>)
    ensures a[..0] == []
  {
  }

  /** The macro PUT_UINT32_BE, for the first seven words and for the eighth. */
  method PutWord(dst: array<Byte>, at: nat, w: Word32, ghost done: seq<Byte>, ghost rest: seq<Byte>)
    requires dst.Length == 32 && at + 4 <= 28 && dst[..at] == done && dst[28..] == rest
    modifies dst
    ensures dst[..at + 4] == done + BytesOf(w) && dst[28..] == rest
  {
    hide BytesOf;
    CopyInto(dst, at, BytesOf(w));
  }

  method LastWord(dst: array<Byte>, w: Word32, ghost done: seq<Byte>)
    requires dst.Length == 32 && dst[..28] == done
    modifies dst
    ensures dst[..28] == done && dst[28..] == BytesOf(w)
  {
    hide BytesOf;
    CopyInto(dst, 28, BytesOf(w));
    assert dst[28..] == dst[28..32];
  }

  /** memcpy into the block buffer. */
  method CopyInto(dst: array<Byte>, at: nat, src: seq<Byte>)
    requires at + |src| <= dst.Length
    modifies dst
    ensures dst[..at] == old(dst[..at]) && dst[at..at + |src|] == src
    ensures dst[..at + |src|] == old(dst[..at]) + src
    ensures forall k :: at + |src| <= k < dst.Length ==> dst[k] == old(dst[k])
  {
    forall i | 0 <= i < |src| { dst[at + i] := src[i]; }
  }

  // ---------------------------------------------------------------------------------------
  // Whole messages.
  // ---------------------------------------------------------------------------------------

  function Flatten(chunks: seq<seq<Byte>>): seq<Byte> {
    if chunks == [] then [] else Flatten(chunks[..|chunks| - 1]) + chunks[|chunks| - 1]
  }

  /** Chunking independence: starts, any run of updates, and finish give the digest of the
      concatenated chunks, so any two ways to cut a message agree. */
  method HashChunks(chunks: seq<seq<Byte>>, is224: bool, output: array<Byte>)
    requires output.Length == 32 && forall i :: 0 <= i < |chunks| ==> |chunks[i]| < WORD
    modifies output
    ensures output[..if is224 then 28 else 32] == Digest(Flatten(chunks), is224)
  {
    hide Digest, Context.Valid;
    var ctx := new Context();
    ctx.Starts(is224);
    var i := 0;
    while i < |chunks|
      invariant 0 <= i <= |chunks|
      invariant fresh(ctx) && fresh(ctx.state) && fresh(ctx.buffer)
      invariant ctx.Valid() && ctx.is224 == is224 && ctx.hashed == Flatten(chunks[..i])
    {
      ctx.Update(chunks[i]);
      assert chunks[..i + 1][..i] == chunks[..i];
      i := i + 1;
    }
    assert chunks[..i] == chunks;
    ctx.Finish(output);
  }

  /** The one-call interface. */
  method Hash(input: seq<Byte>, is224: bool, output: array<Byte>)
    requires output.Length == 32 && |input| < WORD
    modifies output
    ensures output[..if is224 then 28 else 32] == Digest(input, is224)
  {
    hide Digest, Context.Valid;
    var ctx := new Context();
    ctx.Starts(is224);
    ctx.Update(input);
    assert [] + input == input;
    ctx.Finish(output);
  }
}
