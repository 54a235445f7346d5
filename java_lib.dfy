/** The fragments of java.lang.String, java.util.List and Apache commons-lang that the
    connector relies on, with the exact edge-case behaviour the connector inherits from
    them (Java's split drops trailing empty pieces, lastIndexOf answers -1, ArrayList's
    remove(Object) drops only the first occurrence, and so on). */
module JavaLib {

  datatype Option<+T> = None | Some(value: T)

  /** The exceptions the modelled code throws or lets escape. */
  datatype Exception =
    | FlinkBigQueryException(message: string)
    | IOException(message: string)
    | IndexOutOfBounds
    | NullPointer
    | IllegalArgument(message: string)

  datatype Result<+T> = Ok(value: T) | Err(error: Exception)

  type Bytes = seq<bv8>

  // ---------------------------------------------------------------------------
  // Concatenation, stated once so that loops need not re-derive it by extensionality

  /** Proof helper that steers the solver: re-associates a concatenation. */
  lemma Regroup<T>(a: seq<T>, b: seq<T>, c: seq<T>)
    ensures (a + b) + c == a + (b + c)
  {
  }

  /** Proof helper that steers the solver: appending nothing. */
  lemma NothingAppended<T>(a: seq<T>)
    ensures a + [] == a
  {
  }

  /** Proof helper that steers the solver: a non-empty sequence is its head and tail. */
  lemma HeadTail<T>(a: seq<T>)
    requires a != []
    ensures a == [a[0]] + a[1..]
  {
  }

  // ---------------------------------------------------------------------------
  // Searching

  /** `t` occurs in `s` starting at index `i`. */
  predicate OccursAt(s: string, t: string, i: int) {
    0 <= i && i + |t| <= |s| && s[i..i + |t|] == t
  }

  /** String.endsWith */
  predicate EndsWith(s: string, suffix: string) {
    |suffix| <= |s| && s[|s| - |suffix|..] == suffix
  }

  /** String.lastIndexOf(String): the highest start index of `t` in `s`, or -1. */
  function LastIndexOf(s: string, t: string): (r: int)
    ensures r == -1 || OccursAt(s, t, r)
    ensures forall i :: OccursAt(s, t, i) ==> i <= r
  {
    LastIndexAtOrBelow(s, t, |s| - |t|)
  }

  /** The highest start index `i <= k` of `t` in `s`, or -1. */
  function LastIndexAtOrBelow(s: string, t: string, k: int): (r: int)
    requires k <= |s| - |t|
    ensures r == -1 || (OccursAt(s, t, r) && r <= k)
    ensures forall i :: OccursAt(s, t, i) && i <= k ==> i <= r
    decreases k
  {
    if k < 0 then -1
    else if s[k..k + |t|] == t then k
    else LastIndexAtOrBelow(s, t, k - 1)
  }

  /** List.indexOf: the first index of `x` in `xs`, or -1. */
  function IndexOf<T(==)>(xs: seq<T>, x: T): (r: int)
    ensures -1 <= r < |xs|
    ensures r == -1 <==> x !in xs
    ensures 0 <= r ==> xs[r] == x && x !in xs[..r]
  {
    if xs == [] then -1
    else if xs[0] == x then 0
    else
      var k := IndexOf(xs[1..], x);
      assert xs[1..][..if k < 0 then 0 else k] == xs[1..if k < 0 then 1 else k + 1];
      if k < 0 then -1 else k + 1
  }

  /** StringUtils.substringAfterLast(s, sep): the text after the last `sep`, or "" when
      `sep` does not occur. */
  function SubstringAfterLast(s: string, sep: string): (r: string)
    ensures LastIndexOf(s, sep) == -1 ==> r == ""
    ensures LastIndexOf(s, sep) != -1 ==> s == s[..LastIndexOf(s, sep)] + sep + r
  {
    var pos := LastIndexOf(s, sep);
    if pos == -1 then ""
    else
      assert s == s[..pos] + s[pos..pos + |sep|] + s[pos + |sep|..];
      s[pos + |sep|..]
  }

  // ---------------------------------------------------------------------------
  // Trimming

  /** String.trim removes every character up to U+0020 from both ends. */
  predicate IsBlank(c: char) { c <= ' ' }

  function LeadingBlanks(s: string): (n: nat)
    ensures n <= |s|
    ensures forall i :: 0 <= i < n ==> IsBlank(s[i])
    ensures n == |s| || !IsBlank(s[n])
  {
    if s == [] || !IsBlank(s[0]) then 0 else 1 + LeadingBlanks(s[1..])
  }

  function TrailingBlanks(s: string): (n: nat)
    ensures n <= |s|
    ensures forall i :: |s| - n <= i < |s| ==> IsBlank(s[i])
    ensures n == |s| || !IsBlank(s[|s| - n - 1])
  {
    if s == [] || !IsBlank(s[|s| - 1]) then 0 else 1 + TrailingBlanks(s[..|s| - 1])
  }

  /** String.trim */
  function Trim(s: string): (r: string)
    ensures r == [] || (!IsBlank(r[0]) && !IsBlank(r[|r| - 1]))
    ensures |s| > 0 && !IsBlank(s[0]) && !IsBlank(s[|s| - 1]) ==> r == s
    ensures (forall i :: 0 <= i < |s| ==> IsBlank(s[i])) ==> r == []
    ensures exists i, j ::
      && 0 <= i <= j <= |s| && r == s[i..j]
      && (forall k :: 0 <= k < i ==> IsBlank(s[k]))
      && (forall k :: j <= k < |s| ==> IsBlank(s[k]))
  {
    var i := LeadingBlanks(s);
    var j := |s| - TrailingBlanks(s[i..]);
    TrailingBlanksOfSuffix(s, i);
    s[i..j]
  }

  /** The trailing blanks of a suffix are trailing blanks of the whole string. */
  lemma TrailingBlanksOfSuffix(s: string, i: nat)
    requires i <= |s|
    ensures forall k :: |s| - TrailingBlanks(s[i..]) <= k < |s| ==> IsBlank(s[k])
    ensures TrailingBlanks(s[i..]) == |s| - i || !IsBlank(s[|s| - TrailingBlanks(s[i..]) - 1])
  {
    var t := s[i..];
    assert forall k :: i <= k < |s| ==> s[k] == t[k - i];
  }

  // ---------------------------------------------------------------------------
  // Splitting and joining

  /** Every piece of `s` between occurrences of `c`, empty pieces included. */
  function SplitAll(s: string, c: char): (r: seq<string>)
    ensures |r| >= 1
    ensures forall k :: 0 <= k < |r| ==> c !in r[k]
  {
    if s == [] then [""]
    else
      var rest := SplitAll(s[1..], c);
      if s[0] == c then [""] + rest
      else [[s[0]] + rest[0]] + rest[1..]
  }

  /** The pieces with every trailing empty piece removed. */
  function DropTrailingEmpty(xs: seq<string>): (r: seq<string>)
    ensures |r| <= |xs| && r == xs[..|r|]
    ensures r == [] || r[|r| - 1] != ""
    ensures forall k :: |r| <= k < |xs| ==> xs[k] == ""
  {
    if xs == [] || xs[|xs| - 1] != "" then xs
    else DropTrailingEmpty(xs[..|xs| - 1])
  }

  /** String.split on a one-character separator: when the separator does not occur the
      result is the whole string (even ""); otherwise trailing empty pieces are dropped. */
  function JavaSplit(s: string, c: char): (r: seq<string>)
    ensures c !in s ==> r == [s]
    ensures forall k :: 0 <= k < |r| ==> c !in r[k]
    ensures c in s ==> r == [] || r[|r| - 1] != ""
  {
    if c !in s then [s] else DropTrailingEmpty(SplitAll(s, c))
  }

  /** String.join: the pieces in order, the separator between neighbours. */
  function Join(xs: seq<string>, sep: string): (r: string)
    ensures xs == [] ==> r == ""
  {
    if |xs| == 0 then ""
    else if |xs| == 1 then xs[0]
    else xs[0] + sep + Join(xs[1..], sep)
  }

  /** A join starts with the first piece and ends with the last one. */
  lemma {:induction false} JoinFirstAndLast(xs: seq<string>, sep: string)
    requires |xs| >= 1
    ensures |xs[0]| <= |Join(xs, sep)| && Join(xs, sep)[..|xs[0]|] == xs[0]
    ensures EndsWith(Join(xs, sep), xs[|xs| - 1])
  {
    if |xs| >= 2 {
      var rest := Join(xs[1..], sep);
      JoinFirstAndLast(xs[1..], sep);
      assert xs[1..][|xs[1..]| - 1] == xs[|xs| - 1];
      assert (xs[0] + sep + rest)[..|xs[0]|] == xs[0];
      assert (xs[0] + sep + rest)[|xs[0] + sep + rest| - |xs[|xs| - 1]|..] == rest[|rest| - |xs[|xs| - 1]|..];
    }
  }

  /** Joining the pieces back with the separator restores the string. */
  lemma {:induction false} JoinSplitAll(s: string, c: char)
    ensures Join(SplitAll(s, c), [c]) == s
  {
    if s != [] {
      var rest := SplitAll(s[1..], c);
      JoinSplitAll(s[1..], c);
      if s[0] != c {
        if |rest| == 1 {
          assert s == [s[0]] + rest[0];
        } else {
          assert rest == [rest[0]] + rest[1..];
          assert Join(rest, [c]) == rest[0] + [c] + Join(rest[1..], [c]);
          assert s == [s[0]] + s[1..];
        }
      }
    }
  }

  /** Splitting a separator-free prefix followed by more text glues the prefix onto the
      first piece. */
  lemma {:induction false} SplitAllPrefix(a: string, b: string, c: char)
    requires c !in a
    ensures SplitAll(a + b, c) == [a + SplitAll(b, c)[0]] + SplitAll(b, c)[1..]
  {
    var sb := SplitAll(b, c);
    if a == [] {
      assert a + b == b;
      assert a + sb[0] == sb[0];
      assert SplitAll(a + b, c) == sb == [sb[0]] + sb[1..];
    } else {
      assert (a + b)[0] == a[0];
      assert (a + b)[1..] == a[1..] + b;
      SplitAllPrefix(a[1..], b, c);
      assert [a[0]] + (a[1..] + sb[0]) == a + sb[0];
    }
  }

  /** Splitting a join of separator-free pieces gives the pieces back. */
  lemma {:induction false} SplitAllJoin(xs: seq<string>, c: char)
    requires |xs| >= 1
    requires forall k :: 0 <= k < |xs| ==> c !in xs[k]
    ensures SplitAll(Join(xs, [c]), c) == xs
  {
    if |xs| == 1 {
      SplitAllPrefix(xs[0], "", c);
      assert xs[0] + "" == xs[0];
    } else {
      var tail := Join(xs[1..], [c]);
      SplitAllJoin(xs[1..], c);
      assert xs[0] + [c] + tail == xs[0] + ([c] + tail);
      SplitAllPrefix(xs[0], [c] + tail, c);
      assert ([c] + tail)[1..] == tail;
      assert SplitAll([c] + tail, c) == [""] + xs[1..];
      assert xs[0] + "" == xs[0];
    }
  }

  lemma {:induction false} SeparatorInJoin(xs: seq<string>, c: char)
    requires |xs| >= 2
    ensures c in Join(xs, [c])
  {
    assert Join(xs, [c])[|xs[0]|] == c;
  }

  /** A character absent from every piece is absent from their join on another character. */
  lemma {:induction false} CharNotInJoin(xs: seq<string>, sep: char, c: char)
    requires c != sep
    requires forall k :: 0 <= k < |xs| ==> c !in xs[k]
    ensures c !in Join(xs, [sep])
  {
    if |xs| >= 2 {
      CharNotInJoin(xs[1..], sep, c);
      var j := Join(xs[1..], [sep]);
      assert Join(xs, [sep]) == (xs[0] + [sep]) + j;
      assert c !in xs[0] + [sep];
    }
  }

  /** The round trip of Java's split: a non-empty list of separator-free pieces whose last
      piece is not empty (unless it is the only one) survives join-then-split. */
  lemma JavaSplitJoin(xs: seq<string>, c: char)
    requires |xs| >= 1
    requires forall k :: 0 <= k < |xs| ==> c !in xs[k]
    requires |xs| == 1 || xs[|xs| - 1] != ""
    ensures JavaSplit(Join(xs, [c]), c) == xs
  {
    if |xs| >= 2 {
      SeparatorInJoin(xs, c);
      SplitAllJoin(xs, c);
    }
  }

  /** The last piece of a string that does not end with the separator is not empty. */
  lemma {:induction false} SplitAllLastNonEmpty(s: string, c: char)
    requires s != "" && s[|s| - 1] != c
    ensures SplitAll(s, c)[|SplitAll(s, c)| - 1] != ""
  {
    var rest := SplitAll(s[1..], c);
    if s[1..] != "" {
      SplitAllLastNonEmpty(s[1..], c);
    }
  }

  /** A string that does not end with the separator is split into at least one piece, and
      joining the pieces gives the string back: no trailing piece is dropped. */
  lemma JavaSplitRejoin(s: string, c: char)
    requires s == "" || s[|s| - 1] != c
    ensures |JavaSplit(s, c)| >= 1
    ensures Join(JavaSplit(s, c), [c]) == s
  {
    if c in s {
      var pieces := SplitAll(s, c);
      SplitAllLastNonEmpty(s, c);
      assert DropTrailingEmpty(pieces) == pieces;
      JoinSplitAll(s, c);
    }
  }

  /** A trimmed string split on a blank separator rejoins to itself: trimming leaves no
      separator at the end. */
  lemma TrimmedRejoin(s: string, c: char)
    requires IsBlank(c)
    ensures |JavaSplit(Trim(s), c)| >= 1
    ensures Join(JavaSplit(Trim(s), c), [c]) == Trim(s)
  {
    JavaSplitRejoin(Trim(s), c);
  }

  // ---------------------------------------------------------------------------
  // Replacing and removing

  /** String.replace(target, replacement): every non-overlapping occurrence of `t`,
      scanning left to right, is replaced. */
  function Replace(s: string, t: string, repl: string): (r: string)
    requires |t| > 0
    ensures (forall i :: !OccursAt(s, t, i)) ==> r == s
    ensures repl == "" ==> |r| <= |s|
    decreases |s|
  {
    if |s| < |t| then s
    else if s[..|t|] == t then
      assert OccursAt(s, t, 0);
      repl + Replace(s[|t|..], t, repl)
    else
      assert forall i :: OccursAt(s[1..], t, i) ==> OccursAt(s, t, i + 1) by {
        forall i | OccursAt(s[1..], t, i) ensures OccursAt(s, t, i + 1) {
          assert s[1..][i..i + |t|] == s[i + 1..i + 1 + |t|];
        }
      }
      [s[0]] + Replace(s[1..], t, repl)
  }

  /** An occurrence at the very start is replaced, and the search resumes after it. */
  lemma ReplaceLeading(t: string, rest: string, repl: string)
    requires |t| > 0
    ensures Replace(t + rest, t, repl) == repl + Replace(rest, t, repl)
  {
    assert (t + rest)[..|t|] == t;
    assert (t + rest)[|t|..] == rest;
  }

  /** No occurrence of `t` straddles the boundary between `a` and `b` in `a + b`. */
  predicate NoStraddle(a: string, b: string, t: string) {
    forall i :: 0 <= i < |a| < i + |t| ==> !OccursAt(a + b, t, i)
  }

  /** Dropping the first `m` characters of `a` keeps the boundary free of occurrences. */
  lemma NoStraddleAfterDrop(a: string, b: string, t: string, m: nat)
    requires m <= |a| && NoStraddle(a, b, t)
    ensures NoStraddle(a[m..], b, t)
  {
    var a' := a[m..];
    forall i | 0 <= i < |a'| < i + |t| ensures !OccursAt(a' + b, t, i) {
      assert !OccursAt(a + b, t, i + m);
      if i + |t| <= |a' + b| {
        assert (a' + b)[i..i + |t|] == (a + b)[i + m..i + m + |t|];
      }
    }
  }

  /** When no occurrence of `t` straddles the boundary between `a` and `b`, replacing in
      `a + b` is replacing in each part separately. */
  lemma {:induction false} ReplaceConcat(a: string, b: string, t: string, repl: string)
    requires |t| > 0 && NoStraddle(a, b, t)
    ensures Replace(a + b, t, repl) == Replace(a, t, repl) + Replace(b, t, repl)
    decreases |a|
  {
    var s := a + b;
    if a == [] {
      assert s == b;
    } else if |s| < |t| {
    } else if s[..|t|] == t {
      assert OccursAt(s, t, 0);
      assert a[..|t|] == t;
      var a' := a[|t|..];
      assert s[|t|..] == a' + b;
      NoStraddleAfterDrop(a, b, t, |t|);
      ReplaceConcat(a', b, t, repl);
      Regroup(repl, Replace(a', t, repl), Replace(b, t, repl));
    } else {
      var a' := a[1..];
      assert s[1..] == a' + b;
      NoStraddleAfterDrop(a, b, t, 1);
      ReplaceConcat(a', b, t, repl);
      if |a| < |t| {
        assert a == [a[0]] + a';
      } else {
        assert a[..|t|] == s[..|t|];
      }
      Regroup([a[0]], Replace(a', t, repl), Replace(b, t, repl));
    }
  }

  /** A string in which a character of `t` never appears has no occurrence of `t`. */
  lemma NoOccurrenceWithoutChar(s: string, t: string, k: nat)
    requires k < |t| && t[k] !in s
    ensures forall i :: !OccursAt(s, t, i)
  {
    forall i ensures !OccursAt(s, t, i) {
      if 0 <= i && i + |t| <= |s| {
        assert s[i + k] in s;
        assert s[i..i + |t|][k] == s[i + k];
      }
    }
  }

  /** ArrayList.remove(Object): drops the first element equal to `x`, if any. */
  function RemoveFirst<T(==)>(xs: seq<T>, x: T): (r: seq<T>)
    ensures x !in xs ==> r == xs
    ensures x in xs ==> r == xs[..IndexOf(xs, x)] + xs[IndexOf(xs, x) + 1..]
    ensures x in xs ==> multiset(r) == multiset(xs) - multiset{x}
  {
    if x !in xs then xs
    else
      var i := IndexOf(xs, x);
      assert xs == xs[..i] + [xs[i]] + xs[i + 1..];
      xs[..i] + xs[i + 1..]
  }

  // ---------------------------------------------------------------------------
  // Duplicate-free lists

  /** No element occurs twice. */
  predicate Distinct<X(==)>(s: seq<X>) {
    forall i, j :: 0 <= i < j < |s| ==> s[i] != s[j]
  }

  lemma {:induction false} DistinctCount<X>(s: seq<X>, x: X)
    requires Distinct(s)
    ensures multiset(s)[x] == if x in s then 1 else 0
  {
    if s != [] {
      assert Distinct(s[1..]) by {
        forall i, j | 0 <= i < j < |s[1..]| ensures s[1..][i] != s[1..][j] {
          assert s[1..][i] == s[i + 1] && s[1..][j] == s[j + 1];
        }
      }
      DistinctCount(s[1..], x);
      assert s == [s[0]] + s[1..];
      assert s[0] !in s[1..] by {
        forall j | 0 <= j < |s[1..]| ensures s[1..][j] != s[0] {
          assert s[1..][j] == s[j + 1];
        }
      }
      assert x in s <==> x == s[0] || x in s[1..];
    }
  }

  lemma RepeatedCount<X>(s: seq<X>, i: nat, j: nat)
    requires i < j < |s| && s[i] == s[j]
    ensures multiset(s)[s[i]] >= 2
  {
    assert s == s[..j] + s[j..];
    assert s[..j][i] == s[i];
    assert s[j..][0] == s[j];
    assert multiset(s) == multiset(s[..j]) + multiset(s[j..]);
  }

  /** Lists with the same elements as a duplicate-free list are duplicate-free. */
  lemma SameMultisetDistinct<X>(a: seq<X>, b: seq<X>)
    requires Distinct(a) && multiset(a) == multiset(b)
    ensures Distinct(b)
  {
    forall i, j | 0 <= i < j < |b| ensures b[i] != b[j] {
      if b[i] == b[j] {
        RepeatedCount(b, i, j);
        DistinctCount(a, b[i]);
      }
    }
  }

  /** Two duplicate-free lists with the same elements are permutations of each other. */
  lemma DistinctSameElements<X>(a: seq<X>, b: seq<X>)
    requires Distinct(a) && Distinct(b)
    requires forall x :: x in a <==> x in b
    ensures multiset(a) == multiset(b)
  {
    forall x ensures multiset(a)[x] == multiset(b)[x] {
      DistinctCount(a, x);
      DistinctCount(b, x);
    }
  }
}
