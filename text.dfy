/** The two JavaScript string operations the bearer-token gate relies on:
    `String.prototype.startsWith` and `String.prototype.split` with a
    one-character separator (and `Array.prototype.join`, its inverse). */
module Text {

  /** Number of occurrences of `c` in `s`. */
  function Count(s: string, c: char): nat
  {
    if s == [] then 0 else (if s[0] == c then 1 else 0) + Count(s[1..], c)
  }

  /** A character occurs in `s` exactly when it is counted at least once. */
  lemma {:induction false} CountPositive(s: string, c: char)
    ensures Count(s, c) > 0 <==> c in s
  {
    if s != [] {
      CountPositive(s[1..], c);
      assert s == [s[0]] + s[1..];
    }
  }

  /** `s.startsWith(prefix)`: compared character by character, case-sensitively. */
  function StartsWith(s: string, prefix: string): (b: bool)
    ensures b <==> |prefix| <= |s| && s[..|prefix|] == prefix
  {
    if prefix == [] then true
    else if s == [] || s[0] != prefix[0] then false
    else
      var b := StartsWith(s[1..], prefix[1..]);
      assert b ==> s[..|prefix|] == [s[0]] + s[1..][..|prefix| - 1];
      assert |prefix| <= |s| && s[..|prefix|] == prefix ==> s[1..][..|prefix| - 1] == prefix[1..];
      b
  }

  /** `s.split(sep)` for a one-character separator: the pieces between
      separators, always at least one (the empty string splits into `[""]`). */
  function Split(s: string, sep: char): (parts: seq<string>)
    ensures |parts| == Count(s, sep) + 1
    ensures forall i :: 0 <= i < |parts| ==> sep !in parts[i]
  {
    if s == [] then [[]]
    else
      var rest := Split(s[1..], sep);
      if s[0] == sep then [[]] + rest
      else
        var parts := [[s[0]] + rest[0]] + rest[1..];
        assert forall i :: 1 <= i < |parts| ==> parts[i] == rest[i];
        parts
  }

  /** `parts.join(sep)`. */
  function Join(parts: seq<string>, sep: char): string
  {
    if |parts| == 0 then []
    else if |parts| == 1 then parts[0]
    else parts[0] + [sep] + Join(parts[1..], sep)
  }

  /** Joining the pieces of a split gives back the original string. */
  lemma {:induction false} JoinSplit(s: string, sep: char)
    ensures Join(Split(s, sep), sep) == s
  {
    if s != [] {
      var rest := Split(s[1..], sep);
      JoinSplit(s[1..], sep);
      var parts := Split(s, sep);
      if s[0] == sep {
        assert parts[1..] == rest;
      } else {
        assert parts[1..] == rest[1..];
        if |rest| > 1 {
          assert Join(rest, sep) == rest[0] + [sep] + Join(rest[1..], sep);
        }
      }
    }
  }

  /** A string without the separator splits into itself alone. */
  lemma {:induction false} SplitNoSeparator(x: string, sep: char)
    requires sep !in x
    ensures Split(x, sep) == [x]
  {
    if x != [] {
      SplitNoSeparator(x[1..], sep);
      assert [x[0]] + x[1..] == x;
    }
  }

  /** A separator-free piece followed by the separator comes off as the first part. */
  lemma {:induction false} SplitAfterPiece(x: string, sep: char, y: string)
    requires sep !in x
    ensures Split(x + [sep] + y, sep) == [x] + Split(y, sep)
  {
    if x == [] {
      assert x + [sep] + y == [sep] + y;
      assert ([sep] + y)[1..] == y;
    } else {
      var s := x + [sep] + y;
      assert s[1..] == x[1..] + [sep] + y;
      SplitAfterPiece(x[1..], sep, y);
      assert [x[0]] + x[1..] == x;
    }
  }

  /** Splitting a join gives back the pieces, provided none holds the separator. */
  lemma {:induction false} SplitJoin(parts: seq<string>, sep: char)
    requires |parts| >= 1
    requires forall i :: 0 <= i < |parts| ==> sep !in parts[i]
    ensures Split(Join(parts, sep), sep) == parts
  {
    if |parts| == 1 {
      SplitNoSeparator(parts[0], sep);
    } else {
      SplitJoin(parts[1..], sep);
      SplitAfterPiece(parts[0], sep, Join(parts[1..], sep));
      assert [parts[0]] + parts[1..] == parts;
    }
  }

  /** The first part of a split is empty exactly when the string is empty or
      starts with the separator. */
  lemma FirstPartEmpty(s: string, sep: char)
    ensures Split(s, sep)[0] == [] <==> s == [] || s[0] == sep
  {
  }
}
