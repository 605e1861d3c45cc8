/**
 Text helpers behind the statement builders: Python's `sep.join(xs)`, its
 inverse for the `", "` separator the layer uses, and the count of `?`
 characters in a piece of SQL text.
 */
module SqlText {

  import opened SqlValues

  /** The separator every list in the generated SQL uses (`', '.join(...)`). */
  const ListSep: string := ", "

  /** Sum of the lengths of the strings in `xs`. */
  function TotalLength(xs: seq<string>): nat
  {
    if xs == [] then 0 else |xs[0]| + TotalLength(xs[1..])
  }

  /** Python's `sep.join(xs)`: the elements in order with `sep` between neighbours. */
  function Join(sep: string, xs: seq<string>): (r: string)
    ensures |r| == TotalLength(xs) + (if xs == [] then 0 else (|xs| - 1) * |sep|)
    ensures xs != [] ==> |xs[0]| <= |r| && r[..|xs[0]|] == xs[0]
    decreases |xs|
  {
    if |xs| == 0 then ""
    else if |xs| == 1 then xs[0]
    else xs[0] + sep + Join(sep, xs[1..])
  }

  /** True when `s` has the list separator at position `k`. */
  predicate SepAt(s: string, k: int)
  {
    0 <= k && k + 1 < |s| && s[k] == ',' && s[k + 1] == ' '
  }

  /** Position of the first list separator in `s`, or `|s|` when there is none. */
  function FindSep(s: string): (i: nat)
    ensures i <= |s|
    ensures i < |s| ==> SepAt(s, i)
    ensures forall k :: 0 <= k < i ==> !SepAt(s, k)
    decreases |s|
  {
    if |s| < 2 then |s|
    else if s[0] == ',' && s[1] == ' ' then 0
    else
      var j := FindSep(s[1..]);
      assert forall k :: 1 <= k < j + 1 ==> (SepAt(s, k) <==> SepAt(s[1..], k - 1));
      1 + j
  }

  /** Splits `s` at every list separator: the inverse of `Join(ListSep, ·)`. */
  function SplitList(s: string): (r: seq<string>)
    ensures |r| >= 1
    decreases |s|
  {
    var i := FindSep(s);
    if i == |s| then [s] else [s[..i]] + SplitList(s[i + 2..])
  }

  /** No element of `xs` contains a comma, so no separator can hide inside one. */
  predicate CommaFree(xs: seq<string>)
  {
    forall i :: 0 <= i < |xs| ==> ',' !in xs[i]
  }

  /** In `x + ListSep + rest` with a comma-free `x`, the first separator is the one after `x`. */
  lemma FindSepAfterElement(x: string, rest: string)
    requires ',' !in x
    ensures FindSep(x + ListSep + rest) == |x|
  {
    var s := x + ListSep + rest;
    assert SepAt(s, |x|);
    assert forall k :: 0 <= k < |x| ==> s[k] == x[k];
  }

  /** A comma-free string holds no separator at all. */
  lemma FindSepNone(x: string)
    requires ',' !in x
    ensures FindSep(x) == |x|
  {
  }

  /** Splitting a joined list of comma-free elements gives back the elements, in order. */
  lemma {:induction false} SplitJoin(xs: seq<string>)
    requires xs != []
    requires CommaFree(xs)
    ensures SplitList(Join(ListSep, xs)) == xs
  {
    if |xs| == 1 {
      FindSepNone(xs[0]);
    } else {
      var rest := Join(ListSep, xs[1..]);
      var s := xs[0] + ListSep + rest;
      assert ',' !in xs[0];
      FindSepAfterElement(xs[0], rest);
      assert s[..|xs[0]|] == xs[0];
      assert s[|xs[0]| + 2..] == rest;
      assert CommaFree(xs[1..]) by {
        forall i | 0 <= i < |xs[1..]| ensures ',' !in xs[1..][i] {
          assert xs[1..][i] == xs[i + 1];
        }
      }
      SplitJoin(xs[1..]);
      assert xs == [xs[0]] + xs[1..];
    }
  }

  /**
   Reads `s` as `prefix + middle + suffix` and returns the middle part, or
   `None` when `s` does not start with `prefix` and end with `suffix`.
   */
  function Between(s: string, prefix: string, suffix: string): (r: Option<string>)
    ensures r.Some? ==> prefix + r.value + suffix == s
  {
    if |prefix| + |suffix| <= |s| && s[..|prefix|] == prefix && s[|s| - |suffix|..] == suffix
    then Some(s[|prefix|..|s| - |suffix|])
    else None
  }

  /** Text framed by a prefix and a suffix is read back exactly. */
  lemma BetweenFrame(prefix: string, middle: string, suffix: string)
    ensures Between(prefix + middle + suffix, prefix, suffix) == Some(middle)
  {
    var s := prefix + middle + suffix;
    assert s[..|prefix|] == prefix;
    assert s[|s| - |suffix|..] == suffix;
    assert s[|prefix|..|s| - |suffix|] == middle;
  }

  /** Number of `?` characters in `s`; each one is a placeholder unless it sits inside a quoted literal. */
  function Markers(s: string): nat
  {
    multiset(s)['?']
  }

  /** `?` characters add up over concatenation. */
  lemma MarkersConcat(a: string, b: string)
    ensures Markers(a + b) == Markers(a) + Markers(b)
  {
    assert multiset(a + b) == multiset(a) + multiset(b);
  }

  /** The `?` characters of text framed by a prefix and a suffix add up. */
  lemma FrameMarkers(prefix: string, middle: string, suffix: string)
    ensures Markers(prefix + middle + suffix) == Markers(prefix) + Markers(middle) + Markers(suffix)
  {
    MarkersConcat(prefix, middle);
    MarkersConcat(prefix + middle, suffix);
  }

  /** Text without a `?` character has a `?` count of zero. */
  lemma MarkersAbsent(s: string)
    requires '?' !in s
    ensures Markers(s) == 0
  {
  }

  /** Total number of `?` characters over the strings in `xs`. */
  function SumMarkers(xs: seq<string>): nat
  {
    if xs == [] then 0 else Markers(xs[0]) + SumMarkers(xs[1..])
  }

  /** Joining adds no `?` characters: the separator holds none. */
  lemma {:induction false} MarkersJoin(xs: seq<string>)
    ensures Markers(Join(ListSep, xs)) == SumMarkers(xs)
    decreases |xs|
  {
    if |xs| == 0 {
    } else if |xs| == 1 {
      assert xs[1..] == [];
    } else {
      MarkersJoin(xs[1..]);
      MarkersAbsent(ListSep);
      MarkersConcat(xs[0], ListSep);
      MarkersConcat(xs[0] + ListSep, Join(ListSep, xs[1..]));
    }
  }

  /** When every element holds `k` `?` characters, the list holds `k` per element. */
  lemma {:induction false} SumMarkersUniform(xs: seq<string>, k: nat)
    requires forall i :: 0 <= i < |xs| ==> Markers(xs[i]) == k
    ensures SumMarkers(xs) == k * |xs|
    decreases |xs|
  {
    if xs != [] {
      assert forall i :: 0 <= i < |xs[1..]| ==> xs[1..][i] == xs[i + 1];
      SumMarkersUniform(xs[1..], k);
    }
  }
}
