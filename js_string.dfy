/** The ECMAScript string and number operations the RFC code relies on.
    A JavaScript string is a sequence of UTF-16 code units; every character the RFC tables
    use lies in the Basic Multilingual Plane, so each is modelled as one `char`. */
module JsString {

  /** The text JavaScript produces when `undefined` is concatenated to a string. */
  const Undefined: string := "undefined"

  /** The search of `indexOf` from index `from` on: the first index at or after `from` holding
      `c`, or -1. */
  function IndexOfFrom<T(==)>(s: seq<T>, c: T, from: nat): (r: int)
    requires from <= |s|
    ensures r == -1 || from <= r < |s|
    decreases |s| - from
  {
    if from == |s| then -1
    else if s[from] == c then from
    else IndexOfFrom(s, c, from + 1)
  }

  /** `s.indexOf(c)`, for a string and a one-character search string or for an array and an
      element compared with `===`: the first index of `c` in `s`, or -1. */
  function IndexOf<T(==)>(s: seq<T>, c: T): (r: int)
    ensures -1 <= r < |s|
  {
    IndexOfFrom(s, c, 0)
  }

  /** The search from `from` finds the first occurrence at or after `from`, and -1 exactly when
      there is none. */
  lemma {:induction false} IndexOfFromFirst<T>(s: seq<T>, c: T, from: nat)
    requires from <= |s|
    ensures IndexOfFrom(s, c, from) == -1 <==> forall k :: from <= k < |s| ==> s[k] != c
    ensures IndexOfFrom(s, c, from) != -1 ==>
      s[IndexOfFrom(s, c, from)] == c && forall k :: from <= k < IndexOfFrom(s, c, from) ==> s[k] != c
    decreases |s| - from
  {
    if from < |s| && s[from] != c {
      IndexOfFromFirst(s, c, from + 1);
    }
  }

  /** `indexOf` is -1 exactly for a character that does not occur, and otherwise the index of
      its first occurrence. */
  lemma IndexOfFirst<T>(s: seq<T>, c: T)
    ensures IndexOf(s, c) == -1 <==> c !in s
    ensures IndexOf(s, c) != -1 ==> s[IndexOf(s, c)] == c && c !in s[..IndexOf(s, c)]
  {
    IndexOfFromFirst(s, c, 0);
    if c in s {
      var j :| 0 <= j < |s| && s[j] == c;
      assert IndexOf(s, c) != -1;
    }
  }

  /** `s[i]` used as a string operand of `+`: the one-character string at `i`, or the text
      "undefined" when `i` is past the end. */
  function At(s: string, i: nat): (r: string)
    ensures i < |s| ==> |r| == 1 && r[0] == s[i]
    ensures |s| <= i ==> r == Undefined
  {
    if i < |s| then [s[i]] else Undefined
  }

  /** An index argument of `substring`, clamped into 0..length. */
  function Clamp(k: int, length: nat): (r: nat)
    ensures r <= length
  {
    if k < 0 then 0 else if k > length then length else k
  }

  /** `s.substring(start, end)`: both bounds are clamped into 0..|s| and swapped when out of order. */
  function Substring(s: string, start: int, end: int): (r: string)
    ensures 0 <= start <= end <= |s| ==> r == s[start..end]
    ensures 0 <= start <= |s| <= end ==> r == s[start..]
    ensures end <= start <= 0 ==> r == ""
  {
    var a := Clamp(start, |s|);
    var b := Clamp(end, |s|);
    if a <= b then s[a..b] else s[b..a]
  }

  /** A string of `n` spaces. */
  function Spaces(n: nat): (r: string)
    ensures |r| == n
    ensures forall i :: 0 <= i < n ==> r[i] == ' '
  {
    seq(n, _ => ' ')
  }

  /** `s.padStart(n)`: `s` with spaces added in front until it is `n` long; `s` itself when it
      already is at least that long. */
  function PadStart(s: string, n: nat): (r: string)
    ensures |r| == if |s| < n then n else |s|
    ensures r[|r| - |s|..] == s
    ensures forall i :: 0 <= i < |r| - |s| ==> r[i] == ' '
  {
    if n <= |s| then s else Spaces(n - |s|) + s
  }

  /** `a % b` on JavaScript numbers: the remainder of the division truncated toward zero,
      which takes the sign of `a` (unlike Dafny's `%`, which is never negative). */
  function Rem(a: int, b: int): (r: int)
    requires b > 0
    ensures -b < r < b
    ensures a >= 0 ==> r == a % b
    ensures a < 0 ==> -r == (-a) % b
  {
    if a >= 0 then a % b else -((-a) % b)
  }

  /** `s.split(' ')`: the pieces of `s` between single spaces, empty pieces included; the
      empty string splits into one empty piece. */
  function Split(s: string): (r: seq<string>)
    ensures |r| >= 1
    ensures forall k :: 0 <= k < |r| ==> ' ' !in r[k]
  {
    if s == [] then [""]
    else
      var rest := Split(s[1..]);
      if s[0] == ' ' then [""] + rest
      else [[s[0]] + rest[0]] + rest[1..]
  }

  /** `words.join(' ')`: the words with one space between neighbours; "" for no words. */
  function Join(words: seq<string>): (r: string)
  {
    if |words| == 0 then ""
    else if |words| == 1 then words[0]
    else words[0] + " " + Join(words[1..])
  }

  /** A space-free prefix is never split: it joins the first piece of the rest. */
  lemma {:induction false} SplitSpaceFree(t: string, s: string)
    requires ' ' !in t
    ensures Split(t + s) == [t + Split(s)[0]] + Split(s)[1..]
    decreases |t|
  {
    if t != [] {
      assert (t + s)[1..] == t[1..] + s;
      SplitSpaceFree(t[1..], s);
      assert [t[0]] + (t[1..] + Split(s)[0]) == t + Split(s)[0];
    } else {
      assert t + s == s;
      assert t + Split(s)[0] == Split(s)[0];
      assert Split(s) == [Split(s)[0]] + Split(s)[1..];
    }
  }

  /** Splitting on spaces and joining with spaces gives the string back. */
  lemma {:induction false} JoinSplit(s: string)
    ensures Join(Split(s)) == s
    decreases |s|
  {
    if s != [] {
      JoinSplit(s[1..]);
      var rest := Split(s[1..]);
      if s[0] == ' ' {
        assert Join([""] + rest) == " " + Join(rest) by {
          assert ([""] + rest)[1..] == rest;
        }
      } else {
        var r := [[s[0]] + rest[0]] + rest[1..];
        assert r[1..] == rest[1..];
        if |rest| == 1 {
          assert Join(r) == [s[0]] + rest[0];
        } else {
          assert Join(rest) == rest[0] + " " + Join(rest[1..]);
          assert Join(r) == [s[0]] + rest[0] + " " + Join(rest[1..]);
        }
        assert s == [s[0]] + s[1..];
      }
    }
  }

  /** Joining space-free words with spaces and splitting again gives the words back. */
  lemma {:induction false} SplitJoin(words: seq<string>)
    requires |words| >= 1
    requires forall k :: 0 <= k < |words| ==> ' ' !in words[k]
    ensures Split(Join(words)) == words
    decreases |words|
  {
    if |words| == 1 {
      SplitSpaceFree(words[0], "");
      assert words[0] + "" == words[0];
    } else {
      var rest := words[1..];
      SplitJoin(rest);
      assert Join(words) == words[0] + (" " + Join(rest));
      SplitSpaceFree(words[0], " " + Join(rest));
      assert (" " + Join(rest))[1..] == Join(rest);
      assert Split(" " + Join(rest)) == [""] + rest;
      assert words[0] + "" == words[0];
      assert words == [words[0]] + rest;
    }
  }
}
