/** Types shared by the snapshot writer and the property formatters. */
module Common {

  /** An unsigned 8-bit value, as the snapshot byte lists hold. */
  type byte = x: int | 0 <= x < 0x100

  /** An unsigned 32-bit value, as the serializer reports allocation chunk sizes. */
  type uint32 = x: int | 0 <= x < 0x1_0000_0000

  datatype Option<+T> = None | Some(value: T)

  function Min(a: nat, b: nat): nat
  {
    if a <= b then a else b
  }

  /** Number of occurrences of `c` in `s`. */
  function Count(s: string, c: char): nat
  {
    if s == [] then 0 else Count(s[..|s| - 1], c) + (if s[|s| - 1] == c then 1 else 0)
  }

  lemma {:induction false} CountAppend(a: string, b: string, c: char)
    ensures Count(a + b, c) == Count(a, c) + Count(b, c)
    decreases |b|
  {
    if b == [] {
      assert a + b == a;
    } else {
      assert (a + b)[..|a + b| - 1] == a + b[..|b| - 1];
      CountAppend(a, b[..|b| - 1], c);
    }
  }

  lemma AppendAssoc(a: string, b: string, c: string)
    ensures a + b + c == a + (b + c)
  {
  }

  /** A string put before a chain of six joins the chain's first link. */
  lemma PrependToChain(p: string, a: string, b: string, c: string, d: string, e: string, f: string)
    ensures p + (a + b + c + d + e + f) == p + a + b + c + d + e + f
  {
    AppendAssoc(p, a + b + c + d + e, f);
    AppendAssoc(p, a + b + c + d, e);
    AppendAssoc(p, a + b + c, d);
    AppendAssoc(p, a + b, c);
    AppendAssoc(p, a, b);
  }

  /** Eight strings printed one after another, grouped as a reader takes them apart. */
  lemma Regroup(a: string, b: string, c: string, d: string, e: string, f: string, g: string, h: string)
    ensures a + b + c + d + e + f + g + h == a + (b + (c + d + (e + (f + g + h))))
  {
    AppendAssoc(a + b + c + d, e, f + g + h);
    assert a + b + c + d + e + f + g + h == a + b + c + d + (e + (f + g + h));
    AppendAssoc(a + b, c + d, e + (f + g + h));
    AppendAssoc(a, b, c + d + (e + (f + g + h)));
  }

  /** Whether `p` is a prefix of `s`. */
  predicate StartsWith(s: string, p: string)
  {
    |p| <= |s| && s[..|p|] == p
  }

  /** The rest of `s` after the prefix `p`, if `s` starts with it. */
  function After(s: string, p: string): Option<string>
  {
    if StartsWith(s, p) then Some(s[|p|..]) else None
  }

  /** The index of the first `c` in `s`, or `|s|` when there is none. */
  function IndexOf(s: string, c: char): (k: nat)
    ensures k <= |s|
    ensures forall i :: 0 <= i < k ==> s[i] != c
    ensures k < |s| ==> s[k] == c
  {
    if s == [] then 0
    else if s[0] == c then 0
    else IndexOf(s[1..], c) + 1
  }

  lemma AfterConcat(p: string, rest: string)
    ensures After(p + rest, p) == Some(rest)
  {
    assert (p + rest)[..|p|] == p;
    assert (p + rest)[|p|..] == rest;
  }

  lemma IndexOfConcat(a: string, b: string, c: char)
    requires forall i :: 0 <= i < |a| ==> a[i] != c
    requires b != [] && b[0] == c
    ensures IndexOf(a + b, c) == |a|
    ensures (a + b)[..|a|] == a && (a + b)[|a|..] == b
  {
    assert (a + b)[|a|] == c;
    assert forall i :: 0 <= i < |a| ==> (a + b)[i] == a[i];
  }

  lemma StartsWithAppend(s: string, p: string, rest: string)
    requires StartsWith(s, p)
    ensures StartsWith(s + rest, p)
  {
    assert (s + rest)[..|p|] == s[..|p|];
  }

  /** `s` without the suffix `q`, if `s` ends with it. */
  function Before(s: string, q: string): Option<string>
  {
    if |q| <= |s| && s[|s| - |q|..] == q then Some(s[..|s| - |q|]) else None
  }

  /** The index just past the last `c` in `s`, or 0 when there is none. */
  function LastAfter(s: string, c: char): (k: nat)
    ensures k <= |s|
    ensures forall i :: k <= i < |s| ==> s[i] != c
    ensures k > 0 ==> s[k - 1] == c
  {
    if s == [] then 0
    else if s[|s| - 1] == c then |s|
    else LastAfter(s[..|s| - 1], c)
  }

  lemma BeforeConcat(rest: string, q: string)
    ensures Before(rest + q, q) == Some(rest)
  {
    assert (rest + q)[|rest|..] == q;
    assert (rest + q)[..|rest|] == rest;
  }

  /** A string cannot end with two suffixes that differ at a common distance from the end. */
  lemma SuffixesClash(s: string, p: string, q: string, i: nat)
    requires Before(s, p).Some? && i < |p| && i < |q| && p[|p| - 1 - i] != q[|q| - 1 - i]
    ensures Before(s, q) == None
  {
    assert s[|s| - 1 - i] == s[|s| - |p|..][|p| - 1 - i];
  }

  /** The last `c` of `a + b` is the last character of `a` when `b` holds no `c`. */
  lemma {:induction false} LastAfterConcat(a: string, b: string, c: char)
    requires a != [] && a[|a| - 1] == c
    requires forall i :: 0 <= i < |b| ==> b[i] != c
    ensures LastAfter(a + b, c) == |a|
    decreases |b|
  {
    if b == [] {
      assert a + b == a;
    } else {
      assert (a + b)[..|a + b| - 1] == a + b[..|b| - 1];
      LastAfterConcat(a, b[..|b| - 1], c);
    }
  }

  /** Applies a reader `n` times in a row, collecting what it reads. */
  function ReadMany<T>(read: string -> Option<(T, string)>, t: string, n: nat): Option<(seq<T>, string)>
    decreases n
  {
    if n == 0 then Some(([], t))
    else
      match read(t)
      case None => None
      case Some((x, rest)) =>
        match ReadMany(read, rest, n - 1)
        case None => None
        case Some((xs, rest2)) => Some(([x] + xs, rest2))
  }

  /** Reading one more item after `n` of them extends what was read. */
  lemma {:induction false} ReadManySnoc<T>(read: string -> Option<(T, string)>, t: string, n: nat)
    requires ReadMany(read, t, n).Some?
    requires read(ReadMany(read, t, n).value.1).Some?
    ensures ReadMany(read, t, n + 1)
      == Some((ReadMany(read, t, n).value.0 + [read(ReadMany(read, t, n).value.1).value.0],
               read(ReadMany(read, t, n).value.1).value.1))
    decreases n
  {
    if n > 0 {
      var p := read(t).value;
      var q := ReadMany(read, p.1, n - 1).value;
      ReadManySnoc(read, p.1, n - 1);
      var w := read(q.1).value;
      assert ReadMany(read, t, n) == Some(([p.0] + q.0, q.1));
      assert ReadMany(read, p.1, n) == Some((q.0 + [w.0], w.1));
      assert ReadMany(read, t, n + 1) == Some(([p.0] + (q.0 + [w.0]), w.1));
      assert [p.0] + (q.0 + [w.0]) == [p.0] + q.0 + [w.0];
    } else {
      assert ReadMany(read, t, n) == Some(([], t));
      var w := read(t).value;
      assert ReadMany(read, w.1, 0) == Some(([], w.1));
      assert ReadMany(read, t, n + 1) == Some(([w.0] + [], w.1));
      assert [w.0] + [] == [] + [w.0];
    }
  }
}
