/** Bytes, 32-bit words and variable-length numbers of an index shard, and the reader that walks over them. */
module ShardBytes {
  import opened Prelude

  type Byte = x: int | 0 <= x < 256
  type Bytes = seq<Byte>

  const WORD := 0x1_0000_0000

  // ---- reading from the front of the remaining bytes ----------------------------------------

  function Take(s: Bytes, size: nat): (r: Result<(Bytes, Bytes)>)
    ensures r.Ok? ==> |r.value.1| == |s| - size && |r.value.0| == size
  {
    if size > |s| then Err("truncated clangd index record") else Ok((s[..size], s[size..]))
  }

  function OneByte(s: Bytes): (r: Result<(Byte, Bytes)>)
    ensures r.Ok? ==> |r.value.1| == |s| - 1
  {
    if s == [] then Err("truncated clangd index record") else Ok((s[0], s[1..]))
  }

  /** Four bytes, the least significant first. */
  function WordOf(b: Bytes): (r: nat)
    requires |b| == 4
  {
    var b0: nat, b1: nat, b2: nat, b3: nat := b[0], b[1], b[2], b[3];
    b0 + 0x100 * b1 + 0x1_0000 * b2 + 0x100_0000 * b3
  }

  function Word(s: Bytes): (r: Result<(nat, Bytes)>)
    ensures r.Ok? ==> |r.value.1| == |s| - 4
  {
    var t :- Take(s, 4);
    Ok((WordOf(t.0), t.1))
  }

  /** The remaining digits of a variable-length number after `k` digits: seven bits each, at most 32 in all. */
  function VarFrom(s: Bytes, k: nat): (r: Result<(nat, Bytes)>)
    ensures r.Ok? ==> |r.value.1| < |s|
    decreases 5 - k
  {
    if k >= 5 then Err("unterminated clangd varint")
    else if s == [] then Err("truncated clangd index record")
    else if k == 4 && s[0] > 15 then Err("overflowing clangd uint32 varint")
    else if s[0] < 128 then Ok((s[0], s[1..]))
    else
      var t :- VarFrom(s[1..], k + 1);
      Ok((s[0] - 128 + 128 * t.0, t.1))
  }

  function Var(s: Bytes): (r: Result<(nat, Bytes)>)
    ensures r.Ok? ==> |r.value.1| < |s|
  {
    VarFrom(s, 0)
  }

  /** A count of records; each takes at least one byte, so a larger count is refused at once. */
  function Count(s: Bytes): (r: Result<(nat, Bytes)>)
    ensures r.Ok? ==> |r.value.1| < |s|
  {
    var t :- Var(s);
    if t.0 > |t.1| then Err("truncated clangd index sequence") else Ok(t)
  }

  function StringAt(strings: seq<Bytes>, s: Bytes): (r: Result<(Bytes, Bytes)>)
    ensures r.Ok? ==> |r.value.1| < |s|
  {
    var t :- Var(s);
    if t.0 >= |strings| then Err("invalid clangd string table index") else Ok((strings[t.0], t.1))
  }

  // ---- writing in front of the bytes that follow --------------------------------------------

  function PutWord(w: nat, tail: Bytes): (r: Bytes)
    requires w < WORD
  {
    [w % 256, w / 256 % 256, w / 256 / 256 % 256, w / 256 / 256 / 256] + tail
  }

  function PutVar(v: nat, tail: Bytes): (r: Bytes)
    ensures |r| > |tail|
  {
    if v < 128 then [v] + tail else [v % 128 + 128] + PutVar(v / 128, tail)
  }

  function IndexOf(strings: seq<Bytes>, text: Bytes): (i: nat)
    requires text in strings
    ensures i < |strings| && strings[i] == text
  {
    if strings[0] == text then 0 else 1 + IndexOf(strings[1..], text)
  }

  function PutString(strings: seq<Bytes>, text: Bytes, tail: Bytes): (r: Bytes)
    requires text in strings
    ensures |r| > |tail|
  {
    PutVar(IndexOf(strings, text), tail)
  }

  // ---- what is written is read back ---------------------------------------------------------

  lemma TakeBack(raw: Bytes, tail: Bytes)
    ensures Take(raw + tail, |raw|) == Ok((raw, tail))
  {
    assert (raw + tail)[..|raw|] == raw && (raw + tail)[|raw|..] == tail;
  }

  lemma WordDigits(w: nat)
    requires w < WORD
    ensures w / 256 / 256 / 256 < 256
    ensures w % 256 + 0x100 * (w / 256 % 256) + 0x1_0000 * (w / 256 / 256 % 256) + 0x100_0000 * (w / 256 / 256 / 256) == w
  {
    var a := w / 256;
    var b := a / 256;
    assert w == 256 * a + w % 256;
    assert a == 256 * b + a % 256;
    assert b == 256 * (b / 256) + b % 256;
  }

  /** A 32-bit word survives its four bytes. */
  lemma WordRoundTrip(w: nat, tail: Bytes)
    requires w < WORD
    ensures |PutWord(w, tail)| == 4 + |tail| && Word(PutWord(w, tail)) == Ok((w, tail))
  {
    WordDigits(w);
    var raw: Bytes := [w % 256, w / 256 % 256, w / 256 / 256 % 256, w / 256 / 256 / 256];
    TakeBack(raw, tail);
  }

  /** The largest value that still fits after `k` digits. */
  function Room(k: nat): nat
    requires k <= 4
  {
    match k
    case 0 => WORD
    case 1 => 0x200_0000
    case 2 => 0x4_0000
    case 3 => 0x800
    case 4 => 16
  }

  lemma {:induction false} VarFromRoundTrip(v: nat, k: nat, tail: Bytes)
    requires k <= 4 && v < Room(k)
    ensures VarFrom(PutVar(v, tail), k) == Ok((v, tail))
    decreases v
  {
    if v < 128 {
      assert ([v] + tail)[1..] == tail;
    } else {
      assert k < 4 && v / 128 < Room(k + 1);
      VarFromRoundTrip(v / 128, k + 1, tail);
      assert ([v % 128 + 128] + PutVar(v / 128, tail))[1..] == PutVar(v / 128, tail);
      assert v == 128 * (v / 128) + v % 128;
    }
  }

  /** Every 32-bit number survives its variable-length form. */
  lemma VarRoundTrip(v: nat, tail: Bytes)
    requires v < WORD
    ensures Var(PutVar(v, tail)) == Ok((v, tail))
  {
    VarFromRoundTrip(v, 0, tail);
  }

  lemma {:induction false} VarFromFits(s: Bytes, k: nat)
    requires k <= 4 && VarFrom(s, k).Ok?
    ensures VarFrom(s, k).value.0 < Room(k)
    decreases 5 - k
  {
    if s[0] >= 128 && k < 4 { VarFromFits(s[1..], k + 1); }
  }

  /** Nothing longer than 32 bits is ever accepted, and the digit after the fifth is never reached. */
  lemma VarFits(s: Bytes)
    ensures Var(s).Ok? ==> Var(s).value.0 < WORD
    ensures Var(s) != Err("unterminated clangd varint")
  {
    if Var(s).Ok? { VarFromFits(s, 0); }
    VarFromEnds(s, 0);
  }

  lemma {:induction false} VarFromEnds(s: Bytes, k: nat)
    requires k <= 4
    ensures VarFrom(s, k) != Err("unterminated clangd varint")
    decreases 5 - k
  {
    if s != [] && s[0] >= 128 && k < 4 { VarFromEnds(s[1..], k + 1); }
  }

  lemma StringRoundTrip(strings: seq<Bytes>, text: Bytes, tail: Bytes)
    requires text in strings && |strings| <= WORD
    ensures StringAt(strings, PutString(strings, text, tail)) == Ok((text, tail))
  {
    VarRoundTrip(IndexOf(strings, text), tail);
  }

  /** The length guard accepts every count that the bytes behind it can hold. */
  lemma CountRoundTrip(n: nat, tail: Bytes)
    requires n < WORD && n <= |tail|
    ensures Count(PutVar(n, tail)) == Ok((n, tail))
  {
    VarRoundTrip(n, tail);
  }

  // ---- the reader ---------------------------------------------------------------------------

  /** The reader did what the specification says: same value and same remaining bytes, or the same error. */
  predicate Runs<T(==)>(spec: Result<(T, Bytes)>, r: Result<T>, rest: Bytes) {
    match spec
    case Ok(t) => r == Ok(t.0) && rest == t.1
    case Err(reason) => r == Err(reason)
  }

  class Reader {
    const data: Bytes
    var pos: nat

    ghost predicate Valid()
      reads this
    {
      pos <= |data|
    }

    ghost function Rest(): Bytes
      requires Valid()
      reads this
    {
      data[pos..]
    }

    constructor (data: Bytes)
      ensures Valid() && Rest() == data && fresh(this)
    {
      this.data, pos := data, 0;
    }

    function Remaining(): (n: nat)
      requires Valid()
      reads this
      ensures n == |Rest()|
    {
      |data| - pos
    }

    method TakeRaw(size: nat) returns (r: Result<Bytes>)
      requires Valid()
      modifies this
      ensures Valid() && Runs(Take(old(Rest()), size), r, Rest())
    {
      if size > Remaining() { return Err("truncated clangd index record"); }
      r := Ok(data[pos..pos + size]);
      assert data[pos..][..size] == data[pos..pos + size] && data[pos..][size..] == data[pos + size..];
      pos := pos + size;
    }

    method ReadByte() returns (r: Result<Byte>)
      requires Valid()
      modifies this
      ensures Valid() && Runs(OneByte(old(Rest())), r, Rest())
    {
      if pos >= |data| { return Err("truncated clangd index record"); }
      assert data[pos..][1..] == data[pos + 1..];
      r := Ok(data[pos]);
      pos := pos + 1;
    }

    method U32() returns (r: Result<nat>)
      requires Valid()
      modifies this
      ensures Valid() && Runs(Word(old(Rest())), r, Rest())
    {
      var raw :- TakeRaw(4);
      r := Ok(WordOf(raw));
    }

    /** The shifts become a weight: the seven-bit digits do not overlap, so adding them is or-ing them. */
    method ReadVar() returns (r: Result<nat>)
      requires Valid()
      modifies this
      ensures Valid() && Runs(Var(old(Rest())), r, Rest())
    {
      hide Var, VarFrom, Whole;
      var result: nat, weight: nat, k: nat := 0, 1, 0;
      ghost var whole := Var(Rest());
      WholeStarts(Rest());
      while k < 5
        invariant 0 <= k <= 5 && Valid() && weight > 0
        invariant Whole(whole, VarFrom(Rest(), k), result, weight)
      {
        ghost var before := Rest();
        WholeStops(whole, before, k, result, weight);
        var value: nat :- ReadByte();
        if k == 4 && value > 15 { return Err("overflowing clangd uint32 varint"); }
        NextDigit(whole, before, Rest(), k, result, weight);
        result := result + value % 128 * weight;
        if value < 128 { return Ok(result); }
        weight := weight * 128;
        k := k + 1;
      }
      WholeStops(whole, Rest(), k, result, weight);
      return Err("unterminated clangd varint");
    }

    method ReadCount() returns (r: Result<nat>)
      requires Valid()
      modifies this
      ensures Valid() && Runs(Count(old(Rest())), r, Rest())
    {
      var count :- ReadVar();
      if count > Remaining() { return Err("truncated clangd index sequence"); }
      return Ok(count);
    }

    method ReadString(strings: seq<Bytes>) returns (r: Result<Bytes>)
      requires Valid()
      modifies this
      ensures Valid() && Runs(StringAt(strings, old(Rest())), r, Rest())
    {
      var index :- ReadVar();
      if index >= |strings| { return Err("invalid clangd string table index"); }
      return Ok(strings[index]);
    }
  }

  /** What is left to read, added to what was read, is the whole number. */
  predicate Whole(whole: Result<(nat, Bytes)>, left: Result<(nat, Bytes)>, result: nat, weight: nat) {
    match left
    case Ok(t) => whole == Ok((result + weight * t.0, t.1))
    case Err(reason) => whole == Err(reason)
  }

  lemma WholeStarts(s: Bytes)
    ensures Whole(Var(s), VarFrom(s, 0), 0, 1)
  {
  }

  lemma WholeStops(whole: Result<(nat, Bytes)>, s: Bytes, k: nat, result: nat, weight: nat)
    requires Whole(whole, VarFrom(s, k), result, weight)
    ensures k >= 5 ==> whole == Err("unterminated clangd varint")
    ensures k < 5 && s == [] ==> whole == Err("truncated clangd index record")
    ensures k == 4 && s != [] && s[0] > 15 ==> whole == Err("overflowing clangd uint32 varint")
  {
  }

  lemma NextDigit(whole: Result<(nat, Bytes)>, before: Bytes, after: Bytes, k: nat, result: nat, weight: nat)
    requires k < 5 && before != [] && after == before[1..] && !(k == 4 && before[0] > 15)
    requires Whole(whole, VarFrom(before, k), result, weight)
    ensures before[0] < 128 ==> whole == Ok((result + before[0] % 128 * weight, after))
    ensures before[0] >= 128 ==> Whole(whole, VarFrom(after, k + 1), result + before[0] % 128 * weight, weight * 128)
  {
    var b := before[0];
    if b >= 128 && VarFrom(after, k + 1).Ok? {
      Regroup(result, weight, b - 128, VarFrom(after, k + 1).value.0);
      assert b % 128 == b - 128;
    }
  }

  lemma Regroup(result: nat, weight: nat, digit: nat, more: nat)
    ensures result + weight * (digit + 128 * more) == result + digit * weight + weight * 128 * more
  {
    assert weight * (digit + 128 * more) == weight * digit + weight * (128 * more);
  }
}
