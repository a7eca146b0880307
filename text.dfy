/**
  The two JavaScript string operations the receipt page relies on, `split` on a single
  separator character and `trim`, with the facts about them the receipt needs: splitting
  and joining are inverse, the pieces never contain the separator, there is one piece more
  than there are separators, and trimming removes exactly the surrounding white space.
*/
module Text {

  /** The characters `String.prototype.trim` removes: white space and line terminators. */
  predicate IsWhitespace(c: char) {
    || c == ' ' || c == '\t' || c == '\n' || c == '\r'
    || c == '\U{000B}' || c == '\U{000C}' || c == '\U{00A0}' || c == '\U{1680}'
    || ('\U{2000}' <= c <= '\U{200A}')
    || c == '\U{2028}' || c == '\U{2029}' || c == '\U{202F}' || c == '\U{205F}'
    || c == '\U{3000}' || c == '\U{FEFF}'
  }

  /** Drops the leading white space. */
  function TrimStart(s: string): (r: string)
    ensures |r| <= |s|
    decreases |s|
  {
    if s != [] && IsWhitespace(s[0]) then TrimStart(s[1..]) else s
  }

  /** What is left is a suffix of s starting with a non-space, and all that was dropped is white space. */
  lemma {:induction false} TrimStartSpec(s: string)
    ensures var r := TrimStart(s);
            && |r| <= |s| && r == s[|s| - |r|..]
            && (forall k :: 0 <= k < |s| - |r| ==> IsWhitespace(s[k]))
            && (r == [] || !IsWhitespace(r[0]))
    decreases |s|
  {
    if s != [] && IsWhitespace(s[0]) {
      TrimStartSpec(s[1..]);
    }
  }

  /** Drops the trailing white space. */
  function TrimEnd(s: string): (r: string)
    ensures |r| <= |s|
    decreases |s|
  {
    if s != [] && IsWhitespace(s[|s| - 1]) then TrimEnd(s[..|s| - 1]) else s
  }

  /** What is left is a prefix of s ending with a non-space, and all that was dropped is white space. */
  lemma {:induction false} TrimEndSpec(s: string)
    ensures var r := TrimEnd(s);
            && |r| <= |s| && r == s[..|r|]
            && (forall k :: |r| <= k < |s| ==> IsWhitespace(s[k]))
            && (r == [] || !IsWhitespace(r[|r| - 1]))
    decreases |s|
  {
    if s != [] && IsWhitespace(s[|s| - 1]) {
      TrimEndSpec(s[..|s| - 1]);
    }
  }

  /** `s.trim()`. */
  function Trim(s: string): (r: string) {
    TrimEnd(TrimStart(s))
  }

  /**
    Trimming keeps a contiguous piece of s, drops only white space around it, and leaves
    no white space at either end.
  */
  lemma TrimSpec(s: string)
    ensures var r := Trim(s);
            var lead := |s| - |TrimStart(s)|;
            && lead + |r| <= |s|
            && r == s[lead..lead + |r|]
            && (forall k :: 0 <= k < lead ==> IsWhitespace(s[k]))
            && (forall k :: lead + |r| <= k < |s| ==> IsWhitespace(s[k]))
            && (r == [] || (!IsWhitespace(r[0]) && !IsWhitespace(r[|r| - 1])))
  {
    var t := TrimStart(s);
    var r := TrimEnd(t);
    var lead := |s| - |t|;
    TrimStartSpec(s);
    TrimEndSpec(t);
    assert t == s[lead..];
    assert r == t[..|r|];
    assert r == s[lead..lead + |r|];
    forall k | lead + |r| <= k < |s|
      ensures IsWhitespace(s[k])
    {
      assert s[k] == t[k - lead];
    }
    if r != [] {
      assert r[0] == t[0];
    }
  }

  /** A trimmed string holds only characters of the original. */
  lemma TrimChars(s: string, c: char)
    requires c !in s
    ensures c !in Trim(s)
  {
    TrimSpec(s);
  }

  /** A string with no white space at either end is its own trim. */
  lemma TrimNoop(s: string)
    requires s == [] || (!IsWhitespace(s[0]) && !IsWhitespace(s[|s| - 1]))
    ensures Trim(s) == s
  {
    assert TrimStart(s) == s;
    assert TrimEnd(s) == s;
  }

  /** Trimming twice is trimming once. */
  lemma TrimIdempotent(s: string)
    ensures Trim(Trim(s)) == Trim(s)
  {
    TrimSpec(s);
    TrimNoop(Trim(s));
  }

  /** `s.split(sep)` for a one-character separator: the pieces between separators, in order. */
  function Split(s: string, sep: char): (parts: seq<string>)
    ensures |parts| >= 1
    decreases |s|
  {
    if s == [] then [""]
    else
      var rest := Split(s[1..], sep);
      if s[0] == sep then [""] + rest else [[s[0]] + rest[0]] + rest[1..]
  }

  /** `parts.join(sep)`. */
  function Join(parts: seq<string>, sep: char): string
    requires |parts| >= 1
    decreases |parts|
  {
    if |parts| == 1 then parts[0] else parts[0] + [sep] + Join(parts[1..], sep)
  }

  /** The number of occurrences of c in s. */
  function Count(s: string, c: char): nat
    decreases |s|
  {
    if s == [] then 0 else (if s[0] == c then 1 else 0) + Count(s[1..], c)
  }

  /** The text before the first sep (all of s when there is none). */
  function Before(s: string, sep: char): string
    decreases |s|
  {
    if s == [] || s[0] == sep then [] else [s[0]] + Before(s[1..], sep)
  }

  /** The text after the first sep (empty when there is none). */
  function After(s: string, sep: char): string
    decreases |s|
  {
    if s == [] then [] else if s[0] == sep then s[1..] else After(s[1..], sep)
  }

  /** Before is the separator-free start of s; when s has a separator, s is Before, the separator, After. */
  lemma {:induction false} BeforeAfterSpec(s: string, sep: char)
    ensures Before(s, sep) <= s && sep !in Before(s, sep)
    ensures sep in s <==> |Before(s, sep)| < |s|
    ensures sep in s ==> s == Before(s, sep) + [sep] + After(s, sep)
    decreases |s|
  {
    if s != [] && s[0] != sep {
      BeforeAfterSpec(s[1..], sep);
      assert s == [s[0]] + s[1..];
    }
  }

  /**
    The pieces of a split never contain the separator; there is one piece more than there
    are separators; the first piece is the text before the first separator and the others
    are the pieces of the text after it.
  */
  lemma {:induction false} SplitSpec(s: string, sep: char)
    ensures forall p :: p in Split(s, sep) ==> sep !in p
    ensures |Split(s, sep)| == Count(s, sep) + 1
    ensures Split(s, sep)[0] == Before(s, sep)
    ensures sep in s ==> Split(s, sep)[1..] == Split(After(s, sep), sep)
    decreases |s|
  {
    if s != [] {
      SplitSpec(s[1..], sep);
      var rest := Split(s[1..], sep);
      if s[0] != sep {
        forall p | p in Split(s, sep)
          ensures sep !in p
        {
          if p != [s[0]] + rest[0] {
            assert p in rest;
          }
        }
      }
    }
  }

  /** Joining the pieces of a split gives back the string. */
  lemma {:induction false} JoinSplit(s: string, sep: char)
    ensures Join(Split(s, sep), sep) == s
    decreases |s|
  {
    if s != [] {
      JoinSplit(s[1..], sep);
      var rest := Split(s[1..], sep);
      if s[0] == sep {
        assert ([""] + rest)[1..] == rest;
      } else {
        var parts := [[s[0]] + rest[0]] + rest[1..];
        if |rest| > 1 {
          assert parts[1..] == rest[1..];
          assert Join(rest, sep) == rest[0] + [sep] + Join(rest[1..], sep);
        }
        assert s == [s[0]] + s[1..];
      }
    }
  }

  /** Splitting pieces joined by a separator they do not contain gives back the pieces. */
  lemma {:induction false} SplitJoin(parts: seq<string>, sep: char)
    requires |parts| >= 1
    requires forall i :: 0 <= i < |parts| ==> sep !in parts[i]
    ensures Split(Join(parts, sep), sep) == parts
    decreases |parts|
  {
    if |parts| == 1 {
      SplitNoSep(parts[0], sep);
    } else {
      SplitJoin(parts[1..], sep);
      SplitPrefix(parts[0], Join(parts[1..], sep), sep);
    }
  }

  /** Without the separator, a string splits into itself. */
  lemma {:induction false} SplitNoSep(s: string, sep: char)
    requires sep !in s
    ensures Split(s, sep) == [s]
    decreases |s|
  {
    if s != [] {
      SplitNoSep(s[1..], sep);
      assert s == [s[0]] + s[1..];
    }
  }

  /** A separator-free head followed by a separator starts a new piece. */
  lemma {:induction false} SplitPrefix(a: string, b: string, sep: char)
    requires sep !in a
    ensures Split(a + [sep] + b, sep) == [a] + Split(b, sep)
    decreases |a|
  {
    if a == [] {
      assert a + [sep] + b == [sep] + b;
      assert ([sep] + b)[1..] == b;
    } else {
      SplitPrefix(a[1..], b, sep);
      assert (a + [sep] + b)[1..] == a[1..] + [sep] + b;
      assert a == [a[0]] + a[1..];
    }
  }
}
