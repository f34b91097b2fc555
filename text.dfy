/**
 * String helpers shared by the browser client and the API server: whitespace
 * trimming (JavaScript `String.prototype.trim`, Python `str.strip`) and
 * splitting/joining on a one-character separator (`split(' ')`, `join(' ')`).
 */
module Text {

  /** The characters JavaScript's `trim` removes: WhiteSpace and LineTerminator of ECMA-262. */
  predicate IsJsWhitespace(c: char) {
    c == '\t' || c == '\n' || c == '\U{B}' || c == '\U{C}' || c == '\r' || c == ' '
    || c == '\U{A0}' || c == '\U{1680}' || ('\U{2000}' <= c <= '\U{200A}')
    || c == '\U{2028}' || c == '\U{2029}' || c == '\U{202F}' || c == '\U{205F}'
    || c == '\U{3000}' || c == '\U{FEFF}'
  }

  /** The characters Python's argument-less `str.strip` removes (those for which `str.isspace` holds). */
  predicate IsPyWhitespace(c: char) {
    ('\t' <= c <= '\r') || ('\U{1C}' <= c <= '\U{1F}') || c == ' '
    || c == '\U{85}' || c == '\U{A0}' || c == '\U{1680}' || ('\U{2000}' <= c <= '\U{200A}')
    || c == '\U{2028}' || c == '\U{2029}' || c == '\U{202F}' || c == '\U{205F}' || c == '\U{3000}'
  }

  /** Length of the longest prefix of `s` made of `ws` characters. */
  function LeadingCount(s: string, ws: char -> bool): (n: nat)
    ensures n <= |s|
    ensures forall k :: 0 <= k < n ==> ws(s[k])
    ensures n < |s| ==> !ws(s[n])
  {
    if s == [] || !ws(s[0]) then 0 else 1 + LeadingCount(s[1..], ws)
  }

  /** Length of the longest suffix of `s` made of `ws` characters. */
  function TrailingCount(s: string, ws: char -> bool): (n: nat)
    ensures n <= |s|
    ensures forall k :: |s| - n <= k < |s| ==> ws(s[k])
    ensures n < |s| ==> !ws(s[|s| - 1 - n])
  {
    if s == [] || !ws(s[|s| - 1]) then 0 else 1 + TrailingCount(s[..|s| - 1], ws)
  }

  /** `r` is `s[i..j]`, and everything of `s` outside `i..j` and nothing at the ends of `r` is `ws`. */
  ghost predicate TrimAt(r: string, s: string, ws: char -> bool, i: int, j: int) {
    && 0 <= i <= j <= |s|
    && r == s[i..j]
    && (forall k :: 0 <= k < i ==> ws(s[k]))
    && (forall k :: j <= k < |s| ==> ws(s[k]))
    && (r != [] ==> !ws(r[0]) && !ws(r[|r| - 1]))
  }

  /** `r` is what remains of `s` once every leading and trailing `ws` character is removed. */
  ghost predicate IsTrimOf(r: string, s: string, ws: char -> bool) {
    exists i, j :: TrimAt(r, s, ws, i, j)
  }

  /** Remove leading and trailing `ws` characters. */
  function Trim(s: string, ws: char -> bool): (r: string)
    ensures IsTrimOf(r, s, ws)
    ensures r == [] <==> forall k :: 0 <= k < |s| ==> ws(s[k])
  {
    var i := LeadingCount(s, ws);
    var t := s[i..];
    var j := i + |t| - TrailingCount(t, ws);
    assert t[..|t| - TrailingCount(t, ws)] == s[i..j];
    assert TrimAt(s[i..j], s, ws, i, j);
    s[i..j]
  }

  /** The bounds of a trim are the ends of the maximal leading and trailing `ws` runs. */
  lemma TrimAtBounds(r: string, s: string, ws: char -> bool, i: int, j: int)
    requires TrimAt(r, s, ws, i, j)
    ensures r == [] ==> forall k :: 0 <= k < |s| ==> ws(s[k])
    ensures r != [] ==> i == LeadingCount(s, ws) && j == |s| - TrailingCount(s, ws)
  {
    if r != [] {
      assert s[i] == r[0] && s[j - 1] == r[|r| - 1];
    }
  }

  /** A string trims to a unique value: IsTrimOf is a specification that determines Trim. */
  lemma TrimUnique(r1: string, r2: string, s: string, ws: char -> bool)
    requires IsTrimOf(r1, s, ws) && IsTrimOf(r2, s, ws)
    ensures r1 == r2
  {
    var i1, j1 :| TrimAt(r1, s, ws, i1, j1);
    var i2, j2 :| TrimAt(r2, s, ws, i2, j2);
    TrimAtBounds(r1, s, ws, i1, j1);
    TrimAtBounds(r2, s, ws, i2, j2);
  }

  /** Trimming twice is trimming once. */
  lemma TrimIdempotent(s: string, ws: char -> bool)
    ensures Trim(Trim(s, ws), ws) == Trim(s, ws)
  {
    var t := Trim(s, ws);
    assert t == t[0..|t|];
    assert TrimAt(t, t, ws, 0, |t|);
    TrimUnique(Trim(t, ws), t, t, ws);
  }

  /** Split `s` at every `sep`, as JavaScript's `split` and Python's `split` do with a one-character separator. */
  function Split(s: string, sep: char): (parts: seq<string>)
    ensures |parts| >= 1
  {
    if s == [] then [[]] else SplitStep(s[0], sep, Split(s[1..], sep))
  }

  /** Put `c` in front of the pieces `rest`: a separator opens a new first piece, any other character joins it. */
  function SplitStep(c: char, sep: char, rest: seq<string>): (parts: seq<string>)
    requires |rest| >= 1
    ensures |parts| >= 1
  {
    if c == sep then [[]] + rest else [[c] + rest[0]] + rest[1..]
  }

  /** No piece of a split contains the separator. */
  lemma {:induction false} SplitPiecesLackSep(s: string, sep: char)
    ensures forall p :: p in Split(s, sep) ==> sep !in p
  {
    if s != [] {
      SplitPiecesLackSep(s[1..], sep);
      var rest := Split(s[1..], sep);
      if s[0] != sep {
        assert sep !in rest[0];
        assert forall p :: p in rest[1..] ==> p in rest;
      }
    }
  }

  /** Total length of the strings in `parts`. */
  function LengthSum(parts: seq<string>): nat {
    if parts == [] then 0 else |parts[0]| + LengthSum(parts[1..])
  }

  /**
   * Concatenate `parts` with `sep` between neighbours (JavaScript
   * `Array.prototype.join`): the result starts with the first part and holds
   * every character of the parts plus one separator per gap.
   */
  function Join(parts: seq<string>, sep: char): (r: string)
    ensures parts == [] ==> r == []
    ensures parts != [] ==> parts[0] <= r && |r| + 1 == LengthSum(parts) + |parts|
  {
    if |parts| == 0 then []
    else if |parts| == 1 then parts[0]
    else parts[0] + [sep] + Join(parts[1..], sep)
  }

  /** Splitting loses nothing: joining the pieces back gives the original string. */
  lemma {:induction false} JoinSplit(s: string, sep: char)
    ensures Join(Split(s, sep), sep) == s
  {
    if s != [] {
      var rest := Split(s[1..], sep);
      JoinSplit(s[1..], sep);
      if s[0] == sep {
        assert Split(s, sep) == [[]] + rest;
        assert ([[]] + rest)[1..] == rest;
      } else {
        var parts := Split(s, sep);
        assert parts == [[s[0]] + rest[0]] + rest[1..];
        if |rest| == 1 {
          assert parts == [[s[0]] + rest[0]];
        } else {
          assert parts[1..] == rest[1..];
          assert Join(rest, sep) == rest[0] + [sep] + Join(rest[1..], sep);
        }
      }
    }
  }

  /** Splitting at a separator that occurs in no piece recovers the pieces. */
  lemma {:induction false} SplitJoin(parts: seq<string>, sep: char)
    requires |parts| >= 1
    requires forall p :: p in parts ==> sep !in p
    ensures Split(Join(parts, sep), sep) == parts
  {
    if |parts| == 1 {
      SplitNoSep(parts[0], sep);
    } else {
      SplitJoin(parts[1..], sep);
      SplitConcat(parts[0], Join(parts[1..], sep), sep);
      SplitNoSep(parts[0], sep);
      assert [parts[0]] + parts[1..] == parts;
    }
  }

  /** A string without the separator splits into itself. */
  lemma {:induction false} SplitNoSep(s: string, sep: char)
    requires sep !in s
    ensures Split(s, sep) == [s]
  {
    if s != [] {
      assert sep !in s[1..];
      SplitNoSep(s[1..], sep);
      assert [s[0]] + s[1..] == s;
    }
  }

  /** One step of `Split`: the first character either starts a new piece or joins the first one. */
  lemma SplitCons(c: char, t: string, sep: char)
    ensures Split([c] + t, sep) == SplitStep(c, sep, Split(t, sep))
  {
    assert ([c] + t)[1..] == t;
  }

  /** Putting a character in front of `ra + rb` only touches the pieces of `ra`. */
  lemma SplitStepAppend(c: char, sep: char, ra: seq<string>, rb: seq<string>)
    requires |ra| >= 1
    ensures SplitStep(c, sep, ra + rb) == SplitStep(c, sep, ra) + rb
  {
    if c != sep {
      assert (ra + rb)[0] == ra[0] && (ra + rb)[1..] == ra[1..] + rb;
    }
  }

  /** Splitting `a + sep + b` gives the pieces of `a` followed by the pieces of `b`. */
  lemma {:induction false} SplitConcat(a: string, b: string, sep: char)
    ensures Split(a + [sep] + b, sep) == Split(a, sep) + Split(b, sep)
  {
    if a == [] {
      assert a + [sep] + b == [sep] + b;
      SplitCons(sep, b, sep);
    } else {
      var t := a[1..] + [sep] + b;
      assert a + [sep] + b == [a[0]] + t;
      assert a == [a[0]] + a[1..];
      SplitConcat(a[1..], b, sep);
      SplitCons(a[0], t, sep);
      SplitCons(a[0], a[1..], sep);
      SplitStepAppend(a[0], sep, Split(a[1..], sep), Split(b, sep));
    }
  }
}
