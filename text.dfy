/**
 * The string operations the tag subsystem relies on: splitting an
 * expression into whitespace-separated fields, lexicographic order and
 * sorting of strings, and joining with a separator. They follow the
 * standard library routines the tag code calls (field splitting on
 * Unicode white space, byte-wise string comparison, sorting, joining).
 */
module Text {

  /** Unicode white space, the set the field splitter separates on. */
  predicate IsSpace(c: char) {
    || ('\t' <= c <= '\r')
    || c == ' ' || c == '\U{0085}' || c == '\U{00A0}' || c == '\U{1680}'
    || ('\U{2000}' <= c <= '\U{200A}')
    || c == '\U{2028}' || c == '\U{2029}' || c == '\U{202F}' || c == '\U{205F}' || c == '\U{3000}'
  }

  predicate NoSpace(s: string) {
    forall k :: 0 <= k < |s| ==> !IsSpace(s[k])
  }

  /** The longest prefix of `s` that holds no white space. */
  function Word(s: string): (w: string)
    ensures |w| <= |s| && w == s[..|w|]
    ensures NoSpace(w)
    ensures |w| < |s| ==> IsSpace(s[|w|])
  {
    if s == [] || IsSpace(s[0]) then [] else [s[0]] + Word(s[1..])
  }

  /** The maximal runs of non-space characters of `s`, in order. */
  function Fields(s: string): (r: seq<string>)
    ensures forall k :: 0 <= k < |r| ==> r[k] != [] && NoSpace(r[k])
    decreases |s|
  {
    if s == [] then []
    else if IsSpace(s[0]) then Fields(s[1..])
    else
      var w := Word(s);
      [w] + Fields(s[|w|..])
  }

  lemma {:induction false} WordBeforeSpace(a: string, c: char, b: string)
    requires IsSpace(c)
    ensures Word(a + [c] + b) == Word(a)
  {
    if a != [] && !IsSpace(a[0]) {
      assert (a + [c] + b)[1..] == a[1..] + [c] + b;
      WordBeforeSpace(a[1..], c, b);
    }
  }

  /** A white-space character between two strings separates their fields. */
  lemma {:induction false} FieldsSplitAtSpace(a: string, c: char, b: string)
    requires IsSpace(c)
    ensures Fields(a + [c] + b) == Fields(a) + Fields(b)
    decreases |a|
  {
    if a == [] {
      SplitAtLeadingSpace(c, b);
    } else if IsSpace(a[0]) {
      FieldsSplitAtSpace(a[1..], c, b);
      SplitAfterSpace(a, c, b);
    } else {
      FieldsSplitAtSpace(a[|Word(a)|..], c, b);
      SplitAfterWord(a, c, b);
    }
  }

  lemma SplitAtLeadingSpace(c: char, b: string)
    requires IsSpace(c)
    ensures Fields([] + [c] + b) == Fields([]) + Fields(b)
  {
    var s := [] + [c] + b;
    FieldsSkipSpace(s);
    assert s[1..] == b;
  }

  lemma SplitAfterSpace(a: string, c: char, b: string)
    requires a != [] && IsSpace(a[0])
    requires Fields(a[1..] + [c] + b) == Fields(a[1..]) + Fields(b)
    ensures Fields(a + [c] + b) == Fields(a) + Fields(b)
  {
    var s := a + [c] + b;
    assert s[0] == a[0] && s[1..] == a[1..] + [c] + b;
    calc {
      Fields(s);
    == { FieldsSkipSpace(s); }
      Fields(a[1..] + [c] + b);
    ==
      Fields(a[1..]) + Fields(b);
    == { FieldsSkipSpace(a); }
      Fields(a) + Fields(b);
    }
  }

  lemma SplitAfterWord(a: string, c: char, b: string)
    requires a != [] && !IsSpace(a[0]) && IsSpace(c)
    requires Fields(a[|Word(a)|..] + [c] + b) == Fields(a[|Word(a)|..]) + Fields(b)
    ensures Fields(a + [c] + b) == Fields(a) + Fields(b)
  {
    var s := a + [c] + b;
    var w := Word(a);
    var rest := a[|w|..];
    assert Fields(s) == [w] + Fields(rest + [c] + b) by {
      assert s[0] == a[0];
      WordBeforeSpace(a, c, b);
      FieldsTakeWord(s);
      assert s[|w|..] == rest + [c] + b;
    }
    assert Fields(a) == [w] + Fields(rest) by {
      FieldsTakeWord(a);
    }
    Associative([w], Fields(rest), Fields(b));
  }

  /** Leading white space is skipped. */
  lemma FieldsSkipSpace(s: string)
    requires s != [] && IsSpace(s[0])
    ensures Fields(s) == Fields(s[1..])
  {
  }

  /** A leading word is the first field. */
  lemma FieldsTakeWord(s: string)
    requires s != [] && !IsSpace(s[0])
    ensures Fields(s) == [Word(s)] + Fields(s[|Word(s)|..])
  {
  }

  /** Sequence concatenation is associative. */
  lemma Associative<T>(x: seq<T>, y: seq<T>, z: seq<T>)
    ensures (x + y) + z == x + (y + z)
  {
  }

  /** A string has no fields exactly when it is all white space. */
  lemma {:induction false} FieldsEmpty(s: string)
    ensures Fields(s) == [] <==> forall k :: 0 <= k < |s| ==> IsSpace(s[k])
    decreases |s|
  {
    if s != [] && IsSpace(s[0]) {
      FieldsEmpty(s[1..]);
      assert forall k :: 1 <= k < |s| ==> s[k] == s[1..][k - 1];
    }
  }

  /** A non-empty string without white space is a single field. */
  lemma {:induction false} FieldsOfWord(w: string)
    requires w != [] && NoSpace(w)
    ensures Fields(w) == [w]
  {
    WordOfNoSpace(w);
    assert w[|w|..] == [];
  }

  lemma {:induction false} WordOfNoSpace(w: string)
    requires NoSpace(w)
    ensures Word(w) == w
  {
    if w != [] {
      WordOfNoSpace(w[1..]);
    }
  }

  /** Lexicographic order on strings, character by character. */
  predicate Le(a: string, b: string) {
    a == [] || (b != [] && (a[0] < b[0] || (a[0] == b[0] && Le(a[1..], b[1..]))))
  }

  lemma {:induction false} LeReflexive(a: string)
    ensures Le(a, a)
  {
    if a != [] {
      LeReflexive(a[1..]);
    }
  }

  lemma {:induction false} LeTotal(a: string, b: string)
    ensures Le(a, b) || Le(b, a)
  {
    if a != [] && b != [] && a[0] == b[0] {
      LeTotal(a[1..], b[1..]);
    }
  }

  lemma {:induction false} LeAntisymmetric(a: string, b: string)
    requires Le(a, b) && Le(b, a)
    ensures a == b
  {
    if a != [] && b != [] {
      LeAntisymmetric(a[1..], b[1..]);
      assert a == [a[0]] + a[1..] && b == [b[0]] + b[1..];
    }
  }

  lemma {:induction false} LeTransitive(a: string, b: string, c: string)
    requires Le(a, b) && Le(b, c)
    ensures Le(a, c)
  {
    if a != [] && b != [] && c != [] && a[0] == b[0] && b[0] == c[0] {
      LeTransitive(a[1..], b[1..], c[1..]);
    }
  }

  predicate Sorted(s: seq<string>) {
    forall i, j :: 0 <= i < j < |s| ==> Le(s[i], s[j])
  }

  /** Inserts `x` into the sorted sequence `s` before the first element above it. */
  function Insert(x: string, s: seq<string>): (r: seq<string>)
    requires Sorted(s)
    ensures Sorted(r) && multiset(r) == multiset(s) + multiset{x}
  {
    if s == [] then [x]
    else if Le(x, s[0]) then
      assert forall j :: 0 < j < |s| ==> Le(x, s[j]) by {
        forall j | 0 < j < |s| { LeTransitive(x, s[0], s[j]); }
      }
      [x] + s
    else
      LeTotal(x, s[0]);
      var t := Insert(x, s[1..]);
      assert s == [s[0]] + s[1..];
      AboveAll(s[0], s[1..], x, t);
      [s[0]] + t
  }

  /** Every element of a permutation of `u + [x]` is above `lo` when `x` and all of `u` are. */
  lemma AboveAll(lo: string, u: seq<string>, x: string, t: seq<string>)
    requires forall k :: 0 <= k < |u| ==> Le(lo, u[k])
    requires Le(lo, x) && multiset(t) == multiset(u) + multiset{x}
    ensures forall k :: 0 <= k < |t| ==> Le(lo, t[k])
  {
    forall k | 0 <= k < |t| ensures Le(lo, t[k]) {
      assert t[k] in multiset(t);
      if t[k] != x {
        assert t[k] in multiset(u);
        var j :| 0 <= j < |u| && u[j] == t[k];
      }
    }
  }

  /** Go's string sort: the ascending permutation of `s`. */
  function Sort(s: seq<string>): (r: seq<string>)
    ensures Sorted(r) && multiset(r) == multiset(s)
  {
    if s == [] then []
    else
      assert s == [s[0]] + s[1..];
      Insert(s[0], Sort(s[1..]))
  }

  /** The head of a sorted sequence is below each of its elements. */
  lemma SortedHeadBelow(a: seq<string>, x: string)
    requires Sorted(a) && x in multiset(a)
    ensures a != [] && Le(a[0], x)
  {
    var i :| 0 <= i < |a| && a[i] == x;
    if i == 0 {
      LeReflexive(x);
    }
  }

  lemma MultisetTail(a: seq<string>)
    requires a != []
    ensures multiset(a[1..]) == multiset(a) - multiset{a[0]}
  {
    assert a == [a[0]] + a[1..];
  }

  /** There is only one sorted arrangement of a multiset of strings. */
  lemma {:induction false} SortedUnique(a: seq<string>, b: seq<string>)
    requires Sorted(a) && Sorted(b) && multiset(a) == multiset(b)
    ensures a == b
  {
    if a != [] {
      assert a[0] in multiset(b);
      SortedHeadBelow(b, a[0]);
      SortedHeadBelow(a, b[0]);
      LeAntisymmetric(a[0], b[0]);
      MultisetTail(a);
      MultisetTail(b);
      SortedTail(a);
      SortedTail(b);
      SortedUnique(a[1..], b[1..]);
      SameHeadAndTail(a, b);
    }
  }

  lemma SortedTail(a: seq<string>)
    requires a != [] && Sorted(a)
    ensures Sorted(a[1..])
  {
    assert forall i, j :: 0 <= i < j < |a| - 1 ==> a[1..][i] == a[i + 1] && a[1..][j] == a[j + 1];
  }

  lemma SameHeadAndTail(a: seq<string>, b: seq<string>)
    requires a != [] && b != [] && a[0] == b[0] && a[1..] == b[1..]
    ensures a == b
  {
    assert a == [a[0]] + a[1..] && b == [b[0]] + b[1..];
  }

  /** Go's join: the strings of `s` with `sep` between neighbours. */
  function Join(s: seq<string>, sep: string): (r: string)
    ensures s == [] ==> r == []
    ensures |s| == 1 ==> r == s[0]
  {
    if s == [] then ""
    else if |s| == 1 then s[0]
    else s[0] + sep + Join(s[1..], sep)
  }

  /** Joining one more string puts the separator between it and the join of the others. */
  lemma {:induction false} JoinAppend(s: seq<string>, x: string, sep: string)
    requires s != []
    ensures Join(s + [x], sep) == Join(s, sep) + sep + x
    decreases |s|
  {
    var t := s + [x];
    if |s| == 1 {
      assert t[1..] == [x];
    } else {
      assert t[1..] == s[1..] + [x];
      JoinAppend(s[1..], x, sep);
      calc {
        Join(t, sep);
      ==
        s[0] + sep + Join(s[1..] + [x], sep);
      ==
        s[0] + sep + (Join(s[1..], sep) + sep + x);
      == { Associative(s[0] + sep, Join(s[1..], sep), sep + x); }
        (s[0] + sep + Join(s[1..], sep)) + (sep + x);
      }
    }
  }
}
