/**
 * The Python string builtins the pipeline relies on, with their exact semantics:
 * `sep.join(parts)`, `s.split(sep)` for a non-empty separator (leftmost,
 * non-overlapping matches; `"".split(sep) == [""]`) and `str(n)` for a natural number.
 */
module PyStr {
  import opened Wrappers

  /** `sep` occurs in `s` starting at index `i`. */
  predicate OccursAt(s: string, sep: string, i: nat) {
    i + |sep| <= |s| && s[i..i + |sep|] == sep
  }

  /** Python's `sep in s`. */
  predicate Contains(s: string, sep: string) {
    exists i :: 0 <= i <= |s| && OccursAt(s, sep, i)
  }

  /** Python's `s.find(sep, k)`: the leftmost occurrence at or after `k`. */
  function FindFrom(s: string, sep: string, k: nat): (r: Option<nat>)
    requires |sep| > 0
    requires k <= |s|
    decreases |s| - k
    ensures r.Some? ==> k <= r.value && OccursAt(s, sep, r.value)
    ensures forall j: nat :: k <= j && (r.None? || j < r.value) ==> !OccursAt(s, sep, j)
  {
    if k + |sep| > |s| then None
    else if s[k..k + |sep|] == sep then Some(k)
    else FindFrom(s, sep, k + 1)
  }

  /** The summed length of the parts. */
  function TotalLength(parts: seq<string>): nat
  {
    if parts == [] then 0 else |parts[0]| + TotalLength(parts[1..])
  }

  /**
   * Python's `sep.join(parts)`: the parts in order with one separator between
   * neighbours, so the first part is a prefix and the length is the parts' lengths
   * plus one separator fewer than there are parts.
   */
  function Join(parts: seq<string>, sep: string): (s: string)
    ensures parts == [] ==> s == ""
    ensures parts != [] ==> |s| == TotalLength(parts) + (|parts| - 1) * |sep|
    ensures parts != [] ==> |parts[0]| <= |s| && s[..|parts[0]|] == parts[0]
  {
    if |parts| == 0 then ""
    else if |parts| == 1 then parts[0]
    else parts[0] + sep + Join(parts[1..], sep)
  }

  /**
   * A chunk that may stand before a separator: in `chunk + sep` the leftmost
   * occurrence of `sep` is the appended one.
   */
  predicate EndsCleanly(chunk: string, sep: string) {
    forall j: nat :: j < |chunk| ==> !OccursAt(chunk + sep, sep, j)
  }

  /**
   * The shape of every result of `Split`: at least one chunk, every chunk free of
   * `sep`, and every chunk but the last ends cleanly.
   */
  predicate SplitShaped(parts: seq<string>, sep: string) {
    && |parts| >= 1
    && (forall k :: 0 <= k < |parts| ==> !Contains(parts[k], sep))
    && (forall k :: 0 <= k < |parts| - 1 ==> EndsCleanly(parts[k], sep))
  }

  /** Python's `s.split(sep)` for a non-empty `sep` (Python raises ValueError on an empty one). */
  function Split(s: string, sep: string): (parts: seq<string>)
    requires |sep| > 0
    decreases |s|
    ensures SplitShaped(parts, sep)
  {
    match FindFrom(s, sep, 0)
    case None => [s]
    case Some(i) =>
      PrefixBeforeFirst(s, sep, i);
      [s[..i]] + Split(s[i + |sep|..], sep)
  }

  /** The text in front of the leftmost separator is free of it and ends cleanly. */
  lemma PrefixBeforeFirst(s: string, sep: string, i: nat)
    requires |sep| > 0
    requires OccursAt(s, sep, i)
    requires forall j: nat :: j < i ==> !OccursAt(s, sep, j)
    ensures !Contains(s[..i], sep)
    ensures EndsCleanly(s[..i], sep)
  {
    assert s[..i] + sep == s[..i + |sep|];
    forall j: nat | j < i
      ensures !OccursAt(s[..i] + sep, sep, j)
    {
      assert !OccursAt(s, sep, j);
    }
    if Contains(s[..i], sep) {
      var j :| 0 <= j <= i && OccursAt(s[..i], sep, j);
      assert s[..i][j..j + |sep|] == s[j..j + |sep|];
      assert OccursAt(s, sep, j);
      assert false;
    }
  }

  /** Round trip: joining the pieces of a split gives back the original string. */
  lemma {:induction false} JoinSplit(s: string, sep: string)
    requires |sep| > 0
    ensures Join(Split(s, sep), sep) == s
    decreases |s|
  {
    match FindFrom(s, sep, 0)
    case None =>
    case Some(i) =>
      var rest := s[i + |sep|..];
      var tail := Split(rest, sep);
      JoinSplit(rest, sep);
      var parts := [s[..i]] + tail;
      assert parts[1..] == tail;
      calc {
        Join(parts, sep);
        s[..i] + sep + Join(tail, sep);
        s[..i] + s[i..i + |sep|] + rest;
        s;
      }
  }

  /**
   * The converse round trip: splitting the join of split-shaped chunks gives the
   * chunks back. Together with `JoinSplit`, `Split(s, sep)` is the one split-shaped
   * sequence whose join is `s`.
   */
  lemma {:induction false} SplitJoin(parts: seq<string>, sep: string)
    requires |sep| > 0
    requires SplitShaped(parts, sep)
    ensures Split(Join(parts, sep), sep) == parts
    decreases |parts|
  {
    if |parts| == 1 {
      assert !Contains(parts[0], sep);
      assert FindFrom(parts[0], sep, 0).None?;
    } else {
      TailSplitShaped(parts, sep);
      SplitJoin(parts[1..], sep);
      SplitAfterCleanHead(parts[0], sep, Join(parts[1..], sep));
    }
  }

  /** A chunk that ends cleanly, then the separator: the split peels off that chunk. */
  lemma SplitAfterCleanHead(head: string, sep: string, rest: string)
    requires |sep| > 0
    requires EndsCleanly(head, sep)
    ensures Split(head + sep + rest, sep) == [head] + Split(rest, sep)
  {
    var s := head + sep + rest;
    FindAfterCleanHead(head, sep, rest);
    assert s[..|head|] == head;
    assert s[|head| + |sep|..] == rest;
  }

  lemma TailSplitShaped(parts: seq<string>, sep: string)
    requires SplitShaped(parts, sep) && |parts| >= 2
    ensures SplitShaped(parts[1..], sep)
  {
    var tail := parts[1..];
    forall k | 0 <= k < |tail| ensures !Contains(tail[k], sep) { assert tail[k] == parts[k + 1]; }
    forall k | 0 <= k < |tail| - 1 ensures EndsCleanly(tail[k], sep) { assert tail[k] == parts[k + 1]; }
  }

  /** After a chunk that ends cleanly, the leftmost separator is the one that follows it. */
  lemma FindAfterCleanHead(head: string, sep: string, rest: string)
    requires |sep| > 0
    requires EndsCleanly(head, sep)
    ensures FindFrom(head + sep + rest, sep, 0) == Some(|head|)
  {
    var s := head + sep + rest;
    assert s[|head|..|head| + |sep|] == sep;
    assert OccursAt(s, sep, |head|);
    forall j: nat | j < |head| ensures !OccursAt(s, sep, j) {
      assert (head + sep)[j..j + |sep|] == s[j..j + |sep|];
      assert !OccursAt(head + sep, sep, j);
    }
  }

  /** Joining two non-empty runs of parts puts one separator between their joins. */
  lemma {:induction false} JoinAppend(a: seq<string>, b: seq<string>, sep: string)
    requires a != [] && b != []
    ensures Join(a + b, sep) == Join(a, sep) + sep + Join(b, sep)
    decreases |a|
  {
    if |a| == 1 {
      assert (a + b)[1..] == b;
    } else {
      JoinAppend(a[1..], b, sep);
      assert (a + b)[1..] == a[1..] + b;
    }
  }

  /** Splitting the empty string yields one empty chunk, as `"".split(sep)` does. */
  lemma SplitEmpty(sep: string)
    requires |sep| > 0
    ensures Split("", sep) == [""]
  {
    assert FindFrom("", sep, 0) == None;
  }

  predicate IsDigit(c: char) {
    '0' <= c <= '9'
  }

  predicate IsDecimal(s: string) {
    forall k :: 0 <= k < |s| ==> IsDigit(s[k])
  }

  function DigitChar(d: nat): (c: char)
    requires d < 10
  {
    ('0' as int + d) as char
  }

  function DigitValue(c: char): nat
    requires IsDigit(c)
  {
    c as int - '0' as int
  }

  /** Python's `str(n)` for `n >= 0`: decimal digits, no sign, no leading zero. */
  function NatToString(n: nat): (s: string)
    decreases n
    ensures |s| >= 1 && IsDecimal(s)
    ensures s[0] == '0' ==> n == 0
    ensures |s| > 1 ==> s[0] != '0'
  {
    if n < 10 then [DigitChar(n)]
    else NatToString(n / 10) + [DigitChar(n % 10)]
  }

  /** Python's `int(s)` on a string of decimal digits. */
  function ParseNat(s: string): (n: nat)
    requires IsDecimal(s)
    decreases |s|
  {
    if |s| == 0 then 0
    else ParseNat(s[..|s| - 1]) * 10 + DigitValue(s[|s| - 1])
  }

  /** `int(str(n)) == n`. */
  lemma {:induction false} ParseNatToString(n: nat)
    ensures ParseNat(NatToString(n)) == n
    decreases n
  {
    var s := NatToString(n);
    if n < 10 {
      assert s[..0] == [];
    } else {
      ParseNatToString(n / 10);
      assert s[..|s| - 1] == NatToString(n / 10);
      assert DigitValue(s[|s| - 1]) == n % 10;
    }
  }

  /** `str` is injective on natural numbers, so ids derived from distinct counts are distinct. */
  lemma NatToStringInjective(a: nat, b: nat)
    ensures NatToString(a) == NatToString(b) ==> a == b
  {
    ParseNatToString(a);
    ParseNatToString(b);
  }
}
