/** Byte strings and the reads and writes of Node's Buffer that the image code uses. */
module Bytes {
  newtype Byte = b: int | 0 <= b < 256

  type Buffer = seq<Byte>

  /** `subarray`: both ends are clamped to the buffer. */
  function Subarray(x: Buffer, from: nat, to: nat): (s: Buffer)
    ensures from <= to <= |x| ==> s == x[from..to]
  {
    var end := if to <= |x| then to else |x|;
    if from <= end then x[from..end] else []
  }

  function ReadU16BE(x: Buffer, at: nat): nat
    requires at + 2 <= |x|
  {
    256 * x[at] as int + x[at + 1] as int
  }

  function ReadU32BE(x: Buffer, at: nat): nat
    requires at + 4 <= |x|
  {
    0x100_0000 * x[at] as int + 0x1_0000 * x[at + 1] as int + 256 * x[at + 2] as int + x[at + 3] as int
  }

  function ReadU32LE(x: Buffer, at: nat): nat
    requires at + 4 <= |x|
  {
    x[at] as int + 256 * x[at + 1] as int + 0x1_0000 * x[at + 2] as int + 0x100_0000 * x[at + 3] as int
  }

  /** Big-endian reads take the high byte first, little-endian reads take it last. */
  lemma HighBytes(x: Buffer, at: nat)
    requires at + 4 <= |x|
    ensures ReadU16BE(x, at) < 256 <==> x[at] == 0
    ensures ReadU32BE(x, at) == 0x1_0000 * ReadU16BE(x, at) + ReadU16BE(x, at + 2)
    ensures ReadU32LE(x, at) < 0x100_0000 <==> x[at + 3] == 0
  {
  }

  /** The bytes spell the text in ASCII. */
  predicate IsText(t: Buffer, text: string) {
    |t| == |text| && forall i :: 0 <= i < |t| ==> t[i] as int == text[i] as int
  }

  lemma SameText(t: Buffer, c: Buffer, text: string)
    requires IsText(c, text)
    ensures t == c <==> IsText(t, text)
  {
  }

  function U16BE(n: nat): (b: Buffer)
    requires n < 0x1_0000
    ensures |b| == 2 && ReadU16BE(b, 0) == n
  {
    [(n / 256) as Byte, (n % 256) as Byte]
  }

  lemma Digits(n: nat)
    requires n < 0x1_0000_0000
    ensures n / 0x1_0000 == n / 256 / 256 && n / 0x100_0000 == n / 256 / 256 / 256 < 256
    ensures n == n % 256 + 256 * (n / 256 % 256) + 0x1_0000 * (n / 0x1_0000 % 256) + 0x100_0000 * (n / 0x100_0000)
  {
    var a, b, c := n / 256, n / 256 / 256, n / 256 / 256 / 256;
    assert n == 256 * a + n % 256 && a == 256 * b + a % 256 && b == 256 * c + b % 256;
  }

  function U32LE(n: nat): (b: Buffer)
    requires n < 0x1_0000_0000
    ensures |b| == 4 && ReadU32LE(b, 0) == n
  {
    Digits(n);
    [(n % 256) as Byte, (n / 256 % 256) as Byte, (n / 0x1_0000 % 256) as Byte, (n / 0x100_0000) as Byte]
  }

  method WriteU16LE(a: array<Byte>, at: nat, n: nat)
    requires at + 2 <= a.Length && n < 0x1_0000
    modifies a
    ensures a[at] as int == n % 256 && a[at + 1] as int == n / 256
    ensures forall k :: 0 <= k < a.Length && (k < at || at + 2 <= k) ==> a[k] == old(a[k])
  {
    a[at], a[at + 1] := (n % 256) as Byte, (n / 256) as Byte;
  }

  method WriteU32LE(a: array<Byte>, at: nat, n: nat)
    requires at + 4 <= a.Length && n < 0x1_0000_0000
    modifies a
    ensures a[at] as int == n % 256 && a[at + 1] as int == n / 256 % 256
    ensures a[at + 2] as int == n / 0x1_0000 % 256 && a[at + 3] as int == n / 0x100_0000
    ensures forall k :: 0 <= k < a.Length && (k < at || at + 4 <= k) ==> a[k] == old(a[k])
  {
    a[at], a[at + 1] := (n % 256) as Byte, (n / 256 % 256) as Byte;
    a[at + 2], a[at + 3] := (n / 0x1_0000 % 256) as Byte, (n / 0x100_0000) as Byte;
  }

  /** `Buffer.concat`. */
  function Concat(parts: seq<Buffer>): Buffer {
    if parts == [] then [] else parts[0] + Concat(parts[1..])
  }

  lemma {:induction false} ConcatAppend(a: seq<Buffer>, b: seq<Buffer>)
    ensures Concat(a + b) == Concat(a) + Concat(b)
  {
    if a == [] {
      assert a + b == b;
    } else {
      assert (a + b)[1..] == a[1..] + b;
      ConcatAppend(a[1..], b);
    }
  }

  lemma ConcatPush(a: seq<Buffer>, part: Buffer)
    ensures Concat(a + [part]) == Concat(a) + part
  {
    ConcatAppend(a, [part]);
    assert Concat([part]) == part + Concat([]);
  }

  lemma ConcatThree(a: Buffer, b: Buffer, c: Buffer)
    ensures Concat([a, b, c]) == a + Concat([b + c])
  {
    ConcatPush([a, b], c);
    ConcatPush([a], b);
    ConcatPush([], a);
    ConcatPush([], b + c);
    assert [] + [a] == [a] && [a] + [b] == [a, b] && [a, b] + [c] == [a, b, c] && [] + [b + c] == [b + c];
    assert a + b + c == a + (b + c);
  }
}
