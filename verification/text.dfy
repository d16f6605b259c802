/** ASCII models of the Python `str` operations the analyzer and the task service rely on:
    character classes, `lower()`, `capitalize()`, `strip()`, `split()`, `split(sep)`,
    `" ".join(...)`, `sub in s`, `s.replace(w, "")` and `str(n)` / `int(digits)`. */
module Text {

  predicate IsUpper(c: char) { 'A' <= c <= 'Z' }
  predicate IsLower(c: char) { 'a' <= c <= 'z' }
  predicate IsDigit(c: char) { '0' <= c <= '9' }

  /** `\w`, restricted to ASCII. */
  predicate IsWordChar(c: char) { IsUpper(c) || IsLower(c) || IsDigit(c) || c == '_' }

  /** `str.isspace()` and `\s`, restricted to ASCII: TAB..CR, the separators 0x1C..0x1F, and space. */
  predicate IsSpace(c: char) { ('\t' <= c <= '\r') || ('\U{1C}' <= c <= '\U{1F}') || c == ' ' }

  function ToLower(c: char): (r: char)
    ensures !IsUpper(r)
    ensures IsSpace(r) == IsSpace(c) && IsWordChar(r) == IsWordChar(c) && IsDigit(r) == IsDigit(c)
  {
    if IsUpper(c) then (c as int + 32) as char else c
  }

  function ToUpper(c: char): (r: char)
    ensures !IsLower(r)
    ensures IsSpace(r) == IsSpace(c) && IsWordChar(r) == IsWordChar(c) && IsDigit(r) == IsDigit(c)
  {
    if IsLower(c) then (c as int - 32) as char else c
  }

  /** `s.lower()` */
  function Lower(s: string): string
  {
    seq(|s|, i requires 0 <= i < |s| => ToLower(s[i]))
  }

  /** `s.capitalize()`: the first character upper-cased, the rest lower-cased. */
  function Capitalize(s: string): string
  {
    if s == [] then [] else [ToUpper(s[0])] + Lower(s[1..])
  }

  lemma LowerIdempotent(s: string)
    ensures Lower(Lower(s)) == Lower(s)
  {
  }

  lemma CapitalizeIdempotent(s: string)
    ensures Capitalize(Capitalize(s)) == Capitalize(s)
  {
    if s != [] {
      var c := Capitalize(s);
      assert c[1..] == Lower(s[1..]);
      LowerIdempotent(s[1..]);
    }
  }

  // ---------------------------------------------------------------------------
  // strip() and its regex relative ^\W+|\W+$: dropping a run of one character class

  datatype CharClass = Whitespace | NonWord

  predicate InClass(c: char, k: CharClass)
  {
    match k
    case Whitespace => IsSpace(c)
    case NonWord => !IsWordChar(c)
  }

  /** Drops the longest prefix whose characters all belong to class `k`. */
  function DropLeading(s: string, k: CharClass): (r: string)
    ensures |r| <= |s| && r == s[|s| - |r|..]
    ensures r == [] || !InClass(r[0], k)
    ensures forall i :: 0 <= i < |s| - |r| ==> InClass(s[i], k)
    decreases |s|
  {
    if s != [] && InClass(s[0], k) then DropLeading(s[1..], k) else s
  }

  /** Drops the longest suffix whose characters all belong to class `k`. */
  function DropTrailing(s: string, k: CharClass): (r: string)
    ensures |r| <= |s| && r == s[..|r|]
    ensures r == [] || !InClass(r[|r| - 1], k)
    ensures forall i :: |r| <= i < |s| ==> InClass(s[i], k)
    decreases |s|
  {
    if s != [] && InClass(s[|s| - 1], k) then DropTrailing(s[..|s| - 1], k) else s
  }

  /** `s.strip()` */
  function Strip(s: string): string
  {
    DropTrailing(DropLeading(s, Whitespace), Whitespace)
  }

  /** A leading run of class `k` cut from `s` leaves `l`, and a trailing run cut from `l` leaves
      `r`: then `r` is the piece of `s` that starts at `a`, and all that was cut belongs to `k`. */
  lemma TrimmedInfix(s: string, l: string, r: string, k: CharClass) returns (a: nat)
    requires |l| <= |s| && l == s[|s| - |l|..] && forall i :: 0 <= i < |s| - |l| ==> InClass(s[i], k)
    requires |r| <= |l| && r == l[..|r|] && forall i :: |r| <= i < |l| ==> InClass(l[i], k)
    ensures a + |r| <= |s| && r == s[a..a + |r|] && (r != [] ==> r[0] == l[0])
    ensures forall i :: 0 <= i < a ==> InClass(s[i], k)
    ensures forall i :: a + |r| <= i < |s| ==> InClass(s[i], k)
  {
    a := |s| - |l|;
    forall i | a + |r| <= i < |s|
      ensures InClass(s[i], k)
    {
      assert s[i] == l[i - a];
    }
  }

  /** What `strip()` returns is the piece of its argument between a leading run and a trailing
      run of whitespace (`a` is where it starts), and it neither starts nor ends with whitespace. */
  lemma StripIsTrimmedInfix(s: string) returns (a: nat)
    ensures a + |Strip(s)| <= |s| && Strip(s) == s[a..a + |Strip(s)|]
    ensures forall i :: 0 <= i < a ==> IsSpace(s[i])
    ensures forall i :: a + |Strip(s)| <= i < |s| ==> IsSpace(s[i])
    ensures Strip(s) == [] || (!IsSpace(Strip(s)[0]) && !IsSpace(Strip(s)[|Strip(s)| - 1]))
  {
    var l := DropLeading(s, Whitespace);
    var t := DropTrailing(l, Whitespace);
    assert t == Strip(s);
    a := TrimmedInfix(s, l, t, Whitespace);
    assert t == [] || (!IsSpace(t[0]) && !IsSpace(t[|t| - 1]));
  }

  // ---------------------------------------------------------------------------
  // split() and " ".join(...)

  /** A piece of text that `split()` can return: non-empty and free of whitespace. */
  predicate IsToken(w: string)
  {
    |w| > 0 && forall i :: 0 <= i < |w| ==> !IsSpace(w[i])
  }

  /** The longest prefix free of whitespace. */
  function TakeToken(s: string): (r: string)
    ensures |r| <= |s| && r == s[..|r|]
    ensures forall i :: 0 <= i < |r| ==> !IsSpace(r[i])
    ensures |r| < |s| ==> IsSpace(s[|r|])
    decreases |s|
  {
    if s != [] && !IsSpace(s[0]) then [s[0]] + TakeToken(s[1..]) else []
  }

  /** `s.split()` with no argument: the maximal runs of non-whitespace, in order. */
  function Words(s: string): (ws: seq<string>)
    ensures forall i :: 0 <= i < |ws| ==> IsToken(ws[i])
    decreases |s|
  {
    var t := DropLeading(s, Whitespace);
    if t == [] then []
    else
      var w := TakeToken(t);
      [w] + Words(t[|w|..])
  }

  /** `" ".join(ws)` */
  function Join(ws: seq<string>): string
  {
    if ws == [] then []
    else if |ws| == 1 then ws[0]
    else ws[0] + " " + Join(ws[1..])
  }

  lemma TakeTokenOfJoin(w: string, rest: string)
    requires IsToken(w)
    requires rest == [] || IsSpace(rest[0])
    ensures TakeToken(w + rest) == w
    decreases |w|
  {
    if |w| > 1 {
      assert (w + rest)[1..] == w[1..] + rest;
      TakeTokenOfJoin(w[1..], rest);
    } else {
      assert (w + rest)[1..] == rest;
    }
  }

  lemma JoinStartsWithFirst(ws: seq<string>)
    requires ws != [] && IsToken(ws[0])
    ensures Join(ws) != [] && Join(ws)[0] == ws[0][0]
  {
  }

  /** A token followed by whitespace or by nothing is the first word. */
  lemma WordsCons(w: string, rest: string)
    requires IsToken(w)
    requires rest == [] || IsSpace(rest[0])
    ensures Words(w + rest) == [w] + Words(rest)
  {
    var s := w + rest;
    assert DropLeading(s, Whitespace) == s;
    TakeTokenOfJoin(w, rest);
    assert s[|w|..] == rest;
  }

  /** One leading space does not change the words. */
  lemma WordsSkipSpace(j: string)
    requires j == [] || !IsSpace(j[0])
    ensures Words(" " + j) == Words(j)
  {
    var s := " " + j;
    assert s[1..] == j;
    assert DropLeading(j, Whitespace) == j;
    assert DropLeading(s, Whitespace) == j;
  }

  /** Leading whitespace does not change the words. */
  lemma WordsDropLeading(s: string)
    ensures Words(DropLeading(s, Whitespace)) == Words(s)
  {
    var t := DropLeading(s, Whitespace);
    assert DropLeading(t, Whitespace) == t;
  }

  /** The words of `c` put in front of text with words `ws`: `c` is a word of its own when the text
      is empty or starts with whitespace (`spaced`), and otherwise joins the first word. */
  function ConsWord(c: char, ws: seq<string>, spaced: bool): seq<string>
  {
    if spaced || ws == [] then [[c]] + ws else [[c] + ws[0]] + ws[1..]
  }

  lemma WordsConsChar(c: char, r: string)
    requires !IsSpace(c)
    ensures Words([c] + r) == ConsWord(c, Words(r), r == [] || IsSpace(r[0]))
  {
    if r == [] || IsSpace(r[0]) {
      WordsCons([c], r);
    } else {
      WordsJoinFirst(c, r);
    }
  }

  /** Whether `c` starts a word or extends one depends only on the words that follow and on
      whether a blank comes first. */
  lemma WordsConsSame(c: char, r1: string, r2: string)
    requires !IsSpace(c) && Words(r1) == Words(r2)
    requires (r1 == [] || IsSpace(r1[0])) == (r2 == [] || IsSpace(r2[0]))
    ensures Words([c] + r1) == Words([c] + r2)
  {
    WordsConsChar(c, r1);
    WordsConsChar(c, r2);
  }

  lemma TakeTokenCons(c: char, r: string)
    requires !IsSpace(c)
    ensures TakeToken([c] + r) == [c] + TakeToken(r)
  {
    assert ([c] + r)[1..] == r;
  }

  /** A non-blank character in front of a word becomes part of that word. */
  lemma WordsJoinFirst(c: char, r: string)
    requires !IsSpace(c) && r != [] && !IsSpace(r[0])
    ensures Words([c] + r) == [[c] + TakeToken(r)] + Words(r[|TakeToken(r)|..])
    ensures Words(r) == [TakeToken(r)] + Words(r[|TakeToken(r)|..])
  {
    var s := [c] + r;
    var w := TakeToken(r);
    assert DropLeading(r, Whitespace) == r;
    assert DropLeading(s, Whitespace) == s;
    TakeTokenCons(c, r);
    assert s[|w| + 1..] == r[|w|..];
  }

  /** Splitting a single-space join of tokens gives back the tokens. */
  lemma {:induction false} WordsOfJoin(ws: seq<string>)
    requires forall i :: 0 <= i < |ws| ==> IsToken(ws[i])
    ensures Words(Join(ws)) == ws
    decreases |ws|
  {
    if |ws| == 1 {
      WordsOfSingle(ws[0]);
    } else if |ws| > 1 {
      WordsOfJoin(ws[1..]);
      WordsOfJoinStep(ws);
    }
  }

  lemma WordsOfSingle(w: string)
    requires IsToken(w)
    ensures Words(Join([w])) == [w]
  {
    WordsCons(w, []);
    assert w + [] == w;
  }

  lemma WordsOfJoinStep(ws: seq<string>)
    requires |ws| > 1 && forall i :: 0 <= i < |ws| ==> IsToken(ws[i])
    requires Words(Join(ws[1..])) == ws[1..]
    ensures Words(Join(ws)) == ws
  {
    var j := Join(ws[1..]);
    JoinUnfold(ws);
    JoinStartsWithFirst(ws[1..]);
    WordsCons(ws[0], " " + j);
    WordsSkipSpace(j);
    assert ws == [ws[0]] + ws[1..];
  }

  lemma JoinUnfold(ws: seq<string>)
    requires |ws| > 1
    ensures Join(ws) == ws[0] + (" " + Join(ws[1..]))
  {
    var j := Join(ws[1..]);
    assert ws[0] + " " + j == ws[0] + (" " + j);
  }

  // ---------------------------------------------------------------------------
  // s.split(sep) and sep.join(pieces)

  /** `s.split(sep)` with a one-character separator. */
  function Split(s: string, sep: char): (r: seq<string>)
    ensures |r| >= 1
    decreases |s|
  {
    if s == [] then [[]]
    else
      var rest := Split(s[1..], sep);
      if s[0] == sep then [[]] + rest else [[s[0]] + rest[0]] + rest[1..]
  }

  /** The number of occurrences of `c` in `s`. */
  function Count(s: string, c: char): nat
  {
    if s == [] then 0 else (if s[0] == c then 1 else 0) + Count(s[1..], c)
  }

  /** `sep.join(pieces)` for a one-character separator. */
  function JoinWith(pieces: seq<string>, sep: char): string
  {
    if pieces == [] then []
    else if |pieces| == 1 then pieces[0]
    else pieces[0] + [sep] + JoinWith(pieces[1..], sep)
  }

  /** `split(sep)` gives one more piece than there are separators, no piece holds the separator,
      and joining the pieces with the separator gives back the text. */
  lemma {:induction false} SplitSpec(s: string, sep: char)
    ensures |Split(s, sep)| == Count(s, sep) + 1
    ensures forall i :: 0 <= i < |Split(s, sep)| ==> sep !in Split(s, sep)[i]
    ensures JoinWith(Split(s, sep), sep) == s
    decreases |s|
  {
    if s != [] {
      SplitSpec(s[1..], sep);
      var rest := Split(s[1..], sep);
      if s[0] == sep {
        assert s == [sep] + s[1..];
      } else {
        var r := Split(s, sep);
        assert r[0] == [s[0]] + rest[0];
        assert r[1..] == rest[1..];
        if |rest| == 1 {
          assert s == [s[0]] + s[1..];
        } else {
          assert JoinWith(rest, sep) == rest[0] + [sep] + JoinWith(rest[1..], sep);
          assert s == [s[0]] + s[1..];
        }
      }
    }
  }

  // ---------------------------------------------------------------------------
  // `sub in s` and `s.replace(w, "")`

  predicate OccursAt(s: string, sub: string, i: int)
  {
    0 <= i && i + |sub| <= |s| && s[i..i + |sub|] == sub
  }

  /** Python's `sub in s` for strings. */
  predicate Contains(s: string, sub: string)
  {
    exists i | 0 <= i <= |s| - |sub| :: OccursAt(s, sub, i)
  }

  /** `s.replace(w, "")`: every occurrence of `w`, scanned left to right without overlap, removed. */
  function RemoveAll(s: string, w: string): string
    requires |w| > 0
    decreases |s|
  {
    if |s| < |w| then s
    else if s[..|w|] == w then RemoveAll(s[|w|..], w)
    else [s[0]] + RemoveAll(s[1..], w)
  }

  /** `replace(w, "")` leaves its argument unchanged exactly when `w` does not occur in it, and
      otherwise makes it strictly shorter. */
  lemma {:induction false} RemoveAllChanges(s: string, w: string)
    requires |w| > 0
    ensures |RemoveAll(s, w)| <= |s|
    ensures Contains(s, w) ==> |RemoveAll(s, w)| < |s|
    ensures RemoveAll(s, w) == s <==> !Contains(s, w)
    decreases |s|
  {
    if |s| < |w| {
    } else if s[..|w|] == w {
      RemoveAllChanges(s[|w|..], w);
      assert OccursAt(s, w, 0);
    } else {
      var t := s[1..];
      RemoveAllChanges(t, w);
      ContainsPastFirst(s, w);
      assert s == [s[0]] + t;
    }
  }

  /** When `w` does not occur at the start, it occurs in `s` exactly when it occurs after the
      first character. */
  lemma ContainsPastFirst(s: string, w: string)
    requires |w| > 0 && |s| >= |w| && s[..|w|] != w
    ensures Contains(s, w) <==> Contains(s[1..], w)
  {
    var t := s[1..];
    if Contains(s, w) {
      var i :| 0 <= i <= |s| - |w| && OccursAt(s, w, i);
      assert i != 0;
      assert t[i - 1..i - 1 + |w|] == s[i..i + |w|];
      assert OccursAt(t, w, i - 1);
    }
    if Contains(t, w) {
      var i :| 0 <= i <= |t| - |w| && OccursAt(t, w, i);
      assert s[i + 1..i + 1 + |w|] == t[i..i + |w|];
      assert OccursAt(s, w, i + 1);
    }
  }

  // ---------------------------------------------------------------------------
  // str(n) and int(digits)

  function DigitChar(d: nat): (c: char)
    requires d < 10
    ensures IsDigit(c)
  {
    ('0' as int + d) as char
  }

  /** `int(digits)` for a string of ASCII digits (leading zeros allowed). */
  function DigitsValue(s: string): nat
    requires forall i :: 0 <= i < |s| ==> IsDigit(s[i])
  {
    if s == [] then 0
    else
      assert IsDigit(s[|s| - 1]);
      DigitsValue(s[..|s| - 1]) * 10 + (s[|s| - 1] as int - '0' as int)
  }

  /** `str(n)` for a natural number. */
  function NatToString(n: nat): (r: string)
    ensures |r| >= 1 && forall i :: 0 <= i < |r| ==> IsDigit(r[i])
  {
    if n < 10 then [DigitChar(n)] else NatToString(n / 10) + [DigitChar(n % 10)]
  }

  /** `int(str(n)) == n`, and `str(n)` has no leading zero. */
  lemma {:induction false} NatToStringRoundTrip(n: nat)
    ensures DigitsValue(NatToString(n)) == n
    ensures NatToString(n)[0] != '0' || n == 0
  {
    if n >= 10 {
      NatToStringRoundTrip(n / 10);
      var r := NatToString(n);
      assert r[..|r| - 1] == NatToString(n / 10);
    }
  }
}
