/**
 * The parts of Go's `strings` package (and of `unicode.IsSpace`) that the
 * text robot relies on, over `string` = `seq<char>` of Unicode scalar values.
 */
module GoStrings {

  /** unicode.IsSpace: the Latin-1 spaces and the other White_Space characters. */
  predicate IsSpace(c: char) {
    || c == ' ' || c == '\t' || c == '\n' || c == '\r'
    || c == '\U{000B}' || c == '\U{000C}' || c == '\U{0085}' || c == '\U{00A0}'
    || c == '\U{1680}' || ('\U{2000}' <= c <= '\U{200A}')
    || c == '\U{2028}' || c == '\U{2029}' || c == '\U{202F}' || c == '\U{205F}' || c == '\U{3000}'
  }

  /** A string that starts and ends with a non-space character, or is empty. */
  predicate IsTrimmed(s: string) {
    s == [] || (!IsSpace(s[0]) && !IsSpace(s[|s| - 1]))
  }

  function TrimLeft(s: string): (r: string)
    ensures forall c :: c in r ==> c in s
  {
    if s != [] && IsSpace(s[0]) then
      assert forall c :: c in s[1..] ==> c in s;
      TrimLeft(s[1..])
    else s
  }

  function TrimRight(s: string): (r: string)
    ensures r != [] ==> s != [] && r[0] == s[0]
    ensures forall c :: c in r ==> c in s
  {
    if s != [] && IsSpace(s[|s| - 1]) then
      assert forall c :: c in s[..|s| - 1] ==> c in s;
      TrimRight(s[..|s| - 1])
    else s
  }

  /** strings.TrimSpace: drops leading and trailing white space. */
  function TrimSpace(s: string): (r: string)
    ensures forall c :: c in r ==> c in s
  {
    TrimRight(TrimLeft(s))
  }

  lemma {:induction false} TrimLeftShape(s: string)
    ensures var r := TrimLeft(s); (r == [] || !IsSpace(r[0])) && (s != [] && !IsSpace(s[0]) ==> r == s)
  {
    if s != [] && IsSpace(s[0]) {
      TrimLeftShape(s[1..]);
    }
  }

  lemma {:induction false} TrimRightShape(s: string)
    ensures var r := TrimRight(s); (r == [] || !IsSpace(r[|r| - 1])) && (s != [] && !IsSpace(s[|s| - 1]) ==> r == s)
  {
    if s != [] && IsSpace(s[|s| - 1]) {
      TrimRightShape(s[..|s| - 1]);
    }
  }

  /** TrimSpace leaves no white space at either end, and leaves a string without any there unchanged. */
  lemma TrimSpaceShape(s: string)
    ensures IsTrimmed(TrimSpace(s))
    ensures IsTrimmed(s) ==> TrimSpace(s) == s
  {
    TrimLeftShape(s);
    TrimRightShape(TrimLeft(s));
  }

  /** TrimLeft drops exactly the leading run of white space. */
  lemma {:induction false} TrimLeftSlice(s: string)
    ensures exists a :: 0 <= a <= |s| && TrimLeft(s) == s[a..] && forall k :: 0 <= k < a ==> IsSpace(s[k])
  {
    if s != [] && IsSpace(s[0]) {
      var t := s[1..];
      TrimLeftSlice(t);
      var a :| 0 <= a <= |t| && TrimLeft(t) == t[a..] && forall k :: 0 <= k < a ==> IsSpace(t[k]);
      assert t[a..] == s[a + 1..];
      forall k | 0 <= k < a + 1 ensures IsSpace(s[k]) {
        if k > 0 {
          assert s[k] == t[k - 1];
        }
      }
      assert TrimLeft(s) == s[a + 1..];
    } else {
      assert TrimLeft(s) == s[0..];
    }
  }

  /** TrimRight drops exactly the trailing run of white space. */
  lemma {:induction false} TrimRightSlice(s: string)
    ensures exists b :: 0 <= b <= |s| && TrimRight(s) == s[..b] && forall k :: b <= k < |s| ==> IsSpace(s[k])
  {
    if s != [] && IsSpace(s[|s| - 1]) {
      var init := s[..|s| - 1];
      TrimRightSlice(init);
      var b :| 0 <= b <= |init| && TrimRight(init) == init[..b] && forall k :: b <= k < |init| ==> IsSpace(init[k]);
      assert init[..b] == s[..b];
      forall k | b <= k < |s| ensures IsSpace(s[k]) {
        if k < |init| {
          assert s[k] == init[k];
        }
      }
      assert TrimRight(s) == s[..b];
    } else {
      assert TrimRight(s) == s[..|s|];
    }
  }

  /**
   * strings.TrimSpace returns the slice of the string between its leading
   * and its trailing white space; with TrimSpaceShape, which says the slice
   * neither starts nor ends with white space, this determines the result.
   */
  lemma TrimSpaceSlice(s: string)
    ensures exists a, b ::
      && 0 <= a <= b <= |s| && TrimSpace(s) == s[a..b]
      && (forall k :: 0 <= k < a ==> IsSpace(s[k]))
      && (forall k :: b <= k < |s| ==> IsSpace(s[k]))
  {
    TrimLeftSlice(s);
    var a :| 0 <= a <= |s| && TrimLeft(s) == s[a..] && forall k :: 0 <= k < a ==> IsSpace(s[k]);
    var t := s[a..];
    TrimRightSlice(t);
    var c :| 0 <= c <= |t| && TrimRight(t) == t[..c] && forall k :: c <= k < |t| ==> IsSpace(t[k]);
    assert t[..c] == s[a..a + c];
    forall k | a + c <= k < |s| ensures IsSpace(s[k]) {
      assert s[k] == t[k - a];
    }
    assert TrimSpace(s) == s[a..a + c];
  }

  /** strings.HasPrefix */
  predicate HasPrefix(s: string, prefix: string) {
    |prefix| <= |s| && s[..|prefix|] == prefix
  }

  /** strings.Split with a one-character separator: always at least one piece. */
  function Split(s: string, sep: char): (pieces: seq<string>)
    ensures |pieces| >= 1
    ensures forall i :: 0 <= i < |pieces| ==> sep !in pieces[i]
    ensures sep !in s ==> pieces == [s]
    ensures forall i, c :: 0 <= i < |pieces| && c in pieces[i] ==> c in s
  {
    if s == [] then [[]]
    else
      var rest := Split(s[1..], sep);
      assert s == [s[0]] + s[1..];
      assert forall c :: c in s[1..] ==> c in s;
      if s[0] == sep then [[]] + rest else [[s[0]] + rest[0]] + rest[1..]
  }

  /** Splitting a prefix free of the separator, followed by the separator, yields that prefix as the first piece. */
  lemma {:induction false} SplitAfter(a: string, sep: char, b: string)
    requires sep !in a
    ensures Split(a + [sep] + b, sep) == [a] + Split(b, sep)
  {
    if a == [] {
      assert ([sep] + b)[1..] == b;
    } else {
      SplitAfter(a[1..], sep, b);
      assert (a + [sep] + b)[1..] == a[1..] + [sep] + b;
      assert [a[0]] + a[1..] == a;
    }
  }

  /** strings.Join */
  function Join(parts: seq<string>, sep: string): string {
    if parts == [] then []
    else if |parts| == 1 then parts[0]
    else parts[0] + sep + Join(parts[1..], sep)
  }

  /** Joining the pieces of a split with the separator gives back the original string. */
  lemma {:induction false} JoinSplit(s: string, sep: char)
    ensures Join(Split(s, sep), [sep]) == s
  {
    if s != [] {
      var rest := Split(s[1..], sep);
      JoinSplit(s[1..], sep);
      if s[0] == sep {
        assert Split(s, sep) == [[]] + rest;
        assert Join(Split(s, sep), [sep]) == [] + [sep] + Join(rest, [sep]);
      } else if |rest| == 1 {
        assert Join(Split(s, sep), [sep]) == [s[0]] + rest[0];
      } else {
        var pieces := Split(s, sep);
        assert pieces[1..] == rest[1..];
        assert Join(pieces, [sep]) == [s[0]] + rest[0] + [sep] + Join(rest[1..], [sep]);
        assert Join(rest, [sep]) == rest[0] + [sep] + Join(rest[1..], [sep]);
      }
    }
  }

  /** Splitting a join of separator-free parts gives the parts back. */
  lemma {:induction false} SplitJoin(parts: seq<string>, sep: char)
    requires parts != []
    requires forall i :: 0 <= i < |parts| ==> sep !in parts[i]
    ensures Split(Join(parts, [sep]), sep) == parts
  {
    if |parts| > 1 {
      SplitJoin(parts[1..], sep);
      SplitAfter(parts[0], sep, Join(parts[1..], [sep]));
    }
  }

  /** Every character of a join comes from one of the parts or from the separator. */
  lemma {:induction false} JoinChars(parts: seq<string>, sep: string, c: char)
    requires c in Join(parts, sep)
    ensures c in sep || exists i :: 0 <= i < |parts| && c in parts[i]
  {
    if |parts| > 1 {
      if c !in parts[0] && c !in sep {
        JoinChars(parts[1..], sep, c);
        var i :| 0 <= i < |parts[1..]| && c in parts[1..][i];
        assert c in parts[i + 1];
      }
    }
  }

  /** A join of non-empty trimmed parts with a space is itself trimmed, and starts with the first part. */
  lemma {:induction false} JoinTrimmed(parts: seq<string>)
    requires parts != []
    requires forall i :: 0 <= i < |parts| ==> parts[i] != [] && IsTrimmed(parts[i])
    ensures var j := Join(parts, " "); j != [] && j[0] == parts[0][0] && IsTrimmed(j)
  {
    if |parts| > 1 {
      JoinTrimmed(parts[1..]);
      var tail := Join(parts[1..], " ");
      assert Join(parts, " ") == parts[0] + " " + tail;
    }
  }
}
