/**
 * Byte strings, as Go's `string` and `[]byte` are, and the splitting and
 * joining that Go's `strings.Split` and `strings.Join` perform for a
 * separator of one byte.
 */
module Text {

  newtype byte = x: int | 0 <= x < 256

  type Bytes = seq<byte>

  const NEWLINE: byte := 0x0A
  const SPACE: byte := 0x20
  const SEMICOLON: byte := 0x3B
  const LBRACKET: byte := 0x5B
  const BACKSLASH: byte := 0x5C
  const RBRACKET: byte := 0x5D

  /** The bytes of an ASCII text. */
  function Ascii(s: string): (b: Bytes)
    requires forall i :: 0 <= i < |s| ==> s[i] as int < 128
    ensures |b| == |s|
  {
    seq(|s|, i requires 0 <= i < |s| => s[i] as int as byte)
  }

  /** The decimal digits of `n`, as Go's `%d` prints a non-negative number. */
  function Decimal(n: nat): (b: Bytes)
    ensures |b| >= 1
  {
    if n < 10 then [(0x30 + n) as byte] else Decimal(n / 10) + [(0x30 + n % 10) as byte]
  }

  lemma AppendAssoc<T>(a: seq<T>, b: seq<T>, c: seq<T>)
    ensures (a + b) + c == a + (b + c)
  {
  }

  /** The position of the first `x` in `s`. */
  function IndexOf<T(==)>(s: seq<T>, x: T): (i: nat)
    requires x in s
    ensures i < |s| && s[i] == x && x !in s[..i]
  {
    if s[0] == x then 0
    else
      var j := IndexOf(s[1..], x);
      assert s[..j + 1] == [s[0]] + s[1..][..j];
      j + 1
  }

  /**
   * `strings.Split(s, sep)`: the fragments of `s` between occurrences of
   * `sep`, found by cutting at the first remaining separator again and
   * again. Empty fragments are kept, and a text without a separator (the
   * empty text among them) is a single fragment.
   */
  function Split<T(==)>(s: seq<T>, sep: T): (parts: seq<seq<T>>)
    ensures |parts| == multiset(s)[sep] + 1
    ensures forall k :: 0 <= k < |parts| ==> sep !in parts[k]
    decreases |s|
  {
    if sep !in s then [s]
    else
      var i := IndexOf(s, sep);
      assert s == s[..i] + [s[i]] + s[i + 1..];
      assert multiset(s)[sep] == multiset(s[..i])[sep] + 1 + multiset(s[i + 1..])[sep];
      [s[..i]] + Split(s[i + 1..], sep)
  }

  /** `strings.Join(parts, sep)`: the parts with one `sep` between neighbours. */
  function Join<T>(parts: seq<seq<T>>, sep: T): (s: seq<T>)
  {
    if |parts| == 0 then []
    else if |parts| == 1 then parts[0]
    else parts[0] + [sep] + Join(parts[1..], sep)
  }

  /** Joining the fragments back with the separator restores the text exactly. */
  lemma {:induction false} JoinSplit<T>(s: seq<T>, sep: T)
    ensures Join(Split(s, sep), sep) == s
    decreases |s|
  {
    if sep in s {
      var i := IndexOf(s, sep);
      var rest := Split(s[i + 1..], sep);
      JoinSplit(s[i + 1..], sep);
      assert Split(s, sep) == [s[..i]] + rest;
      assert ([s[..i]] + rest)[1..] == rest;
      assert s == s[..i] + [sep] + s[i + 1..];
    }
  }

  /** Splitting a join of separator-free parts gives the parts back. */
  lemma {:induction false} SplitJoin<T>(parts: seq<seq<T>>, sep: T)
    requires |parts| >= 1
    requires forall k :: 0 <= k < |parts| ==> sep !in parts[k]
    ensures Split(Join(parts, sep), sep) == parts
    decreases |parts|
  {
    if |parts| > 1 {
      var head, tail := parts[0], Join(parts[1..], sep);
      var s := head + [sep] + tail;
      assert Join(parts, sep) == s;
      assert s[|head|] == sep;
      var i := IndexOf(s, sep);
      assert i == |head|;
      assert s[..i] == head;
      assert s[i + 1..] == tail;
      SplitJoin(parts[1..], sep);
      assert parts == [head] + parts[1..];
    }
  }
}
