/** The four regular expressions the analyzer applies, each written as a left-to-right scan and
    proved against a description of what the expression matches:
      `(\d+)\s*(hr|hour|hrs|hours)` searched in a list item (the duration),
      `\b<word>\b` substituted by nothing (dropping an action word),
      `\s+` substituted by one space, and `^\W+|\W+$` substituted by nothing. */
module Patterns {
  import opened Values
  import opened Text

  // ---------------------------------------------------------------------------
  // (\d+)\s*(hr|hour|hrs|hours)

  predicate AllDigits(s: string, i: int, j: int)
    requires 0 <= i <= j <= |s|
  {
    forall m :: i <= m < j ==> IsDigit(s[m])
  }

  predicate AllSpace(s: string, i: int, j: int)
    requires 0 <= i <= j <= |s|
  {
    forall m :: i <= m < j ==> IsSpace(s[m])
  }

  /** The unit alternatives start at `k`. `hrs` and `hours` extend `hr` and `hour`, so whether the
      expression matches, and what group 1 holds, depends on `hr` and `hour` alone. */
  predicate UnitAt(s: string, k: int)
    requires 0 <= k <= |s|
  {
    (k + 2 <= |s| && s[k..k + 2] == "hr") || (k + 4 <= |s| && s[k..k + 4] == "hour")
  }

  /** The expression matches at `i`: group 1 is `s[i..j]`, the blanks are `s[j..k]`, the unit
      starts at `k`. */
  predicate HoursMatch(s: string, i: int, j: int, k: int)
  {
    0 <= i < j <= k <= |s| && AllDigits(s, i, j) && AllSpace(s, j, k) && UnitAt(s, k)
  }

  /** `int(group(1))` */
  function GroupValue(s: string, i: int, j: int): nat
    requires 0 <= i <= j <= |s| && AllDigits(s, i, j)
  {
    assert forall m :: 0 <= m < j - i ==> IsDigit(s[i..j][m]);
    DigitsValue(s[i..j])
  }

  function DigitRunEnd(s: string, i: int): (j: int)
    requires 0 <= i <= |s|
    ensures i <= j <= |s| && AllDigits(s, i, j) && (j < |s| ==> !IsDigit(s[j]))
    decreases |s| - i
  {
    if i < |s| && IsDigit(s[i]) then DigitRunEnd(s, i + 1) else i
  }

  function SpaceRunEnd(s: string, i: int): (j: int)
    requires 0 <= i <= |s|
    ensures i <= j <= |s| && AllSpace(s, i, j) && (j < |s| ==> !IsSpace(s[j]))
    decreases |s| - i
  {
    if i < |s| && IsSpace(s[i]) then SpaceRunEnd(s, i + 1) else i
  }

  lemma {:induction false} DigitRunEndUnique(s: string, i: int, j: int)
    requires 0 <= i <= j <= |s| && AllDigits(s, i, j) && (j < |s| ==> !IsDigit(s[j]))
    ensures j == DigitRunEnd(s, i)
    decreases |s| - i
  {
    if i < j {
      DigitRunEndUnique(s, i + 1, j);
    }
  }

  lemma {:induction false} SpaceRunEndUnique(s: string, i: int, j: int)
    requires 0 <= i <= j <= |s| && AllSpace(s, i, j) && (j < |s| ==> !IsSpace(s[j]))
    ensures j == SpaceRunEnd(s, i)
    decreases |s| - i
  {
    if i < j {
      SpaceRunEndUnique(s, i + 1, j);
    }
  }

  /** The test the search makes at position `i`: take the whole run of digits, then the whole
      run of blanks, and look for the unit. */
  predicate HitAt(s: string, i: int)
    requires 0 <= i < |s|
  {
    IsDigit(s[i]) && UnitAt(s, SpaceRunEnd(s, DigitRunEnd(s, i)))
  }

  /** Greedy matching loses nothing here: the expression matches at `i` exactly when the test
      succeeds, and then group 1 is the whole run of digits. */
  lemma HitAtIff(s: string, i: int)
    requires 0 <= i < |s|
    ensures HitAt(s, i) ==> HoursMatch(s, i, DigitRunEnd(s, i), SpaceRunEnd(s, DigitRunEnd(s, i)))
    ensures forall j, k :: HoursMatch(s, i, j, k) ==> HitAt(s, i) && j == DigitRunEnd(s, i)
  {
    forall j, k | HoursMatch(s, i, j, k)
      ensures HitAt(s, i) && j == DigitRunEnd(s, i)
    {
      assert s[k] == 'h';
      assert j < k ==> IsSpace(s[j]);
      DigitRunEndUnique(s, i, j);
      SpaceRunEndUnique(s, j, k);
    }
  }

  /** `re.search`: the value of group 1 at the first position where the expression matches. */
  function ScanHoursFrom(s: string, i: int): Option<nat>
    requires 0 <= i <= |s|
    decreases |s| - i
  {
    if i == |s| then None
    else if HitAt(s, i) then Some(GroupValue(s, i, DigitRunEnd(s, i)))
    else ScanHoursFrom(s, i + 1)
  }

  function ScanHours(s: string): Option<nat>
  {
    ScanHoursFrom(s, 0)
  }

  lemma {:induction false} ScanHoursFromNone(s: string, i: int)
    requires 0 <= i <= |s| && ScanHoursFrom(s, i).None?
    ensures forall a, b, c :: i <= a ==> !HoursMatch(s, a, b, c)
    decreases |s| - i
  {
    if i < |s| {
      HitAtIff(s, i);
      ScanHoursFromNone(s, i + 1);
    }
  }

  /** Where the scan from `i` finds a value, the match it stands for. */
  lemma {:induction false} ScanHoursFromFound(s: string, i: int) returns (a: int, b: int, c: int)
    requires 0 <= i <= |s| && ScanHoursFrom(s, i).Some?
    ensures i <= a && HoursMatch(s, a, b, c) && ScanHoursFrom(s, i).value == GroupValue(s, a, b)
    ensures forall a', b', c' :: i <= a' && HoursMatch(s, a', b', c') ==> a <= a'
    ensures forall b', c' :: HoursMatch(s, a, b', c') ==> b' == b
    decreases |s| - i
  {
    HitAtIff(s, i);
    if HitAt(s, i) {
      a, b := i, DigitRunEnd(s, i);
      c := SpaceRunEnd(s, b);
    } else {
      a, b, c := ScanHoursFromFound(s, i + 1);
    }
  }

  /** The duration scan is the regular-expression search: it finds nothing exactly when the
      expression matches nowhere, and otherwise returns the number written at the leftmost match
      (all of its digits, as the greedy `\d+` takes them). */
  lemma ScanHoursSpec(s: string)
    ensures ScanHours(s).None? <==> forall a, b, c :: !HoursMatch(s, a, b, c)
    ensures ScanHours(s).Some? ==>
      exists a, b, c :: HoursMatch(s, a, b, c) && ScanHours(s).value == GroupValue(s, a, b) &&
        (forall a', b', c' :: HoursMatch(s, a', b', c') ==> a <= a') &&
        (forall b', c' :: HoursMatch(s, a, b', c') ==> b' == b)
  {
    if ScanHours(s).None? {
      ScanHoursFromNone(s, 0);
    } else {
      var a, b, c := ScanHoursFromFound(s, 0);
    }
  }

  /** The scan reports the number at the leftmost match. */
  lemma ScanHoursAtLeftmost(s: string, a: int, b: int, c: int)
    requires HoursMatch(s, a, b, c)
    requires forall a', b', c' :: HoursMatch(s, a', b', c') ==> a <= a'
    ensures ScanHours(s) == Some(GroupValue(s, a, b))
  {
    ScanHoursSpec(s);
    var a0, b0, c0 :| HoursMatch(s, a0, b0, c0) && ScanHours(s).value == GroupValue(s, a0, b0) &&
      (forall a', b', c' :: HoursMatch(s, a', b', c') ==> a0 <= a') &&
      (forall b', c' :: HoursMatch(s, a0, b', c') ==> b' == b0);
    assert a == a0;
  }

  // ---------------------------------------------------------------------------
  // re.sub(r'\b' + w + r'\b', '', s)

  /** `\b` at position `p`: a word character on exactly one side. */
  predicate Boundary(s: string, p: int)
    requires 0 <= p <= |s|
  {
    (p > 0 && IsWordChar(s[p - 1])) != (p < |s| && IsWordChar(s[p]))
  }

  /** `\b<w>\b` matches at `i`. */
  predicate BoundedAt(s: string, w: string, i: int)
  {
    0 <= i && i + |w| <= |s| && s[i..i + |w|] == w && Boundary(s, i) && Boundary(s, i + |w|)
  }

  /** The substitution scanned from `i`: a match is dropped and the scan resumes after it;
      otherwise the character is kept and the scan moves one place. */
  function RemoveBoundedFrom(s: string, w: string, i: int): string
    requires |w| > 0 && 0 <= i <= |s|
    decreases |s| - i
  {
    if i == |s| then []
    else if BoundedAt(s, w, i) then RemoveBoundedFrom(s, w, i + |w|)
    else [s[i]] + RemoveBoundedFrom(s, w, i + 1)
  }

  function RemoveBounded(s: string, w: string): string
    requires |w| > 0
  {
    RemoveBoundedFrom(s, w, 0)
  }

  lemma {:induction false} RemoveBoundedFromShorter(s: string, w: string, i: int)
    requires |w| > 0 && 0 <= i <= |s|
    ensures |RemoveBoundedFrom(s, w, i)| <= |s| - i
    decreases |s| - i
  {
    if i < |s| {
      RemoveBoundedFromShorter(s, w, if BoundedAt(s, w, i) then i + |w| else i + 1);
    }
  }

  /** A match at `p`, at or after the start of the scan, makes the result shorter. */
  lemma {:induction false} RemoveBoundedFromDrops(s: string, w: string, i: int, p: int)
    requires |w| > 0 && 0 <= i <= p && BoundedAt(s, w, p)
    ensures |RemoveBoundedFrom(s, w, i)| < |s| - i
    decreases |s| - i
  {
    if BoundedAt(s, w, i) {
      RemoveBoundedFromShorter(s, w, i + |w|);
    } else {
      RemoveBoundedFromDrops(s, w, i + 1, p);
    }
  }

  lemma {:induction false} RemoveBoundedFromNone(s: string, w: string, i: int)
    requires |w| > 0 && 0 <= i <= |s|
    requires forall p :: i <= p ==> !BoundedAt(s, w, p)
    ensures RemoveBoundedFrom(s, w, i) == s[i..]
    decreases |s| - i
  {
    if i < |s| {
      RemoveBoundedFromNone(s, w, i + 1);
      assert s[i..] == [s[i]] + s[i + 1..];
    }
  }

  /** Dropping `\b<w>\b` changes the text exactly when `w` occurs there as a whole word, and then
      makes it shorter. */
  lemma RemoveBoundedChanges(s: string, w: string)
    requires |w| > 0
    ensures |RemoveBounded(s, w)| <= |s|
    ensures RemoveBounded(s, w) == s <==> forall p :: !BoundedAt(s, w, p)
  {
    RemoveBoundedFromShorter(s, w, 0);
    if forall p :: !BoundedAt(s, w, p) {
      RemoveBoundedFromNone(s, w, 0);
      assert s[0..] == s;
    } else {
      var p :| BoundedAt(s, w, p);
      RemoveBoundedFromDrops(s, w, 0, p);
    }
  }

  /** A word whose whole-word occurrences cannot be rebuilt by removing one: it starts and ends
      with a word character and never holds two non-word characters side by side. */
  predicate WordShaped(w: string)
  {
    |w| > 0 && IsWordChar(w[0]) && IsWordChar(w[|w| - 1]) && NoBlankPair(w)
  }

  /** No two non-word characters stand side by side. */
  predicate NoBlankPair(v: string)
  {
    forall j :: 0 <= j < |v| - 1 ==> IsWordChar(v[j]) || IsWordChar(v[j + 1])
  }

  /** `\b<w>\b` at `q` of `t` when the character before `t` is a word character exactly when
      `leftWord` holds. */
  predicate BoundedAfter(t: string, w: string, q: int, leftWord: bool)
  {
    0 <= q && q + |w| <= |t| && t[q..q + |w|] == w && |w| > 0 &&
    (if q == 0 then leftWord != IsWordChar(t[0]) else Boundary(t, q)) && Boundary(t, q + |w|)
  }

  /** Right after a word character no match of a word-shaped `w` can start, so the scan keeps
      the character there. */
  lemma AfterWordCharKept(s: string, w: string, j: int)
    requires WordShaped(w) && 0 < j < |s| && IsWordChar(s[j - 1])
    ensures RemoveBoundedFrom(s, w, j) == [s[j]] + RemoveBoundedFrom(s, w, j + 1)
  {
  }

  /** After a removed match the scan's output starts with a non-word character, or is empty. */
  lemma AfterMatchStartsBlank(s: string, w: string, i: int)
    requires WordShaped(w) && BoundedAt(s, w, i)
    ensures var r := RemoveBoundedFrom(s, w, i + |w|); r == [] || !IsWordChar(r[0])
  {
    var j := i + |w|;
    assert s[j - 1] == s[i..j][|w| - 1] == w[|w| - 1];
    if j < |s| {
      AfterWordCharKept(s, w, j);
    }
  }

  /** No match starts right after `i` when the scan's output from `i + 1` begins with a word
      character or the character at `i` is one. */
  lemma NextNotMatch(s: string, w: string, i: int)
    requires WordShaped(w) && 0 <= i && i + 1 <= |s|
    requires var r := RemoveBoundedFrom(s, w, i + 1); |r| > 0 && (IsWordChar(s[i]) || IsWordChar(r[0]))
    ensures !BoundedAt(s, w, i + 1)
  {
    if !IsWordChar(s[i]) && BoundedAt(s, w, i + 1) {
      AfterMatchStartsBlank(s, w, i + 1);
      assert false;
    }
  }

  /** Where the scan keeps the character at `i` and its output starts with `v`, that character
      is `v[0]` and the output from `i + 1` starts with the rest of `v`. */
  lemma ScanFirstKept(s: string, w: string, i: int, v: string)
    requires |w| > 0 && 0 <= i <= |s| && !BoundedAt(s, w, i)
    requires 0 < |v| <= |RemoveBoundedFrom(s, w, i)| && RemoveBoundedFrom(s, w, i)[..|v|] == v
    ensures i < |s| && s[i] == v[0]
    ensures RemoveBoundedFrom(s, w, i) == [s[i]] + RemoveBoundedFrom(s, w, i + 1)
    ensures |v| - 1 <= |RemoveBoundedFrom(s, w, i + 1)|
    ensures RemoveBoundedFrom(s, w, i + 1)[..|v| - 1] == v[1..]
  {
    var r := RemoveBoundedFrom(s, w, i);
    var r' := RemoveBoundedFrom(s, w, i + 1);
    assert r[..|v|] == [s[i]] + r'[..|v| - 1];
  }

  /** When the scan from `i` keeps the character there and its output starts with `v`, a text
      that ends with a word character and never holds two non-word characters side by side, the
      source holds `v` at `i` and the scan passed over it untouched. */
  lemma {:induction false} ScanKeepsPrefix(s: string, w: string, i: int, v: string)
    requires WordShaped(w) && 0 <= i <= |s| && !BoundedAt(s, w, i)
    requires |v| > 0 && IsWordChar(v[|v| - 1]) && NoBlankPair(v)
    requires |v| <= |RemoveBoundedFrom(s, w, i)| && RemoveBoundedFrom(s, w, i)[..|v|] == v
    ensures i + |v| <= |s| && s[i..i + |v|] == v
    ensures RemoveBoundedFrom(s, w, i) == v + RemoveBoundedFrom(s, w, i + |v|)
    decreases |v|
  {
    ScanFirstKept(s, w, i, v);
    if |v| > 1 {
      var v' := v[1..];
      NoBlankPairTail(v);
      NextNotMatch(s, w, i);
      ScanKeepsPrefix(s, w, i + 1, v');
      ConsPrefix(s, i, v, RemoveBoundedFrom(s, w, i), RemoveBoundedFrom(s, w, i + 1),
                 RemoveBoundedFrom(s, w, i + |v|));
    }
  }

  /** The tail of a text without adjacent non-word characters has none either, and when the
      first character is not a word character the second one is. */
  lemma NoBlankPairTail(v: string)
    requires |v| > 1 && NoBlankPair(v)
    ensures NoBlankPair(v[1..]) && (IsWordChar(v[0]) || IsWordChar(v[1])) && v[1..][0] == v[1]
  {
    var v' := v[1..];
    forall j | 0 <= j < |v'| - 1
      ensures IsWordChar(v'[j]) || IsWordChar(v'[j + 1])
    {
      assert v'[j] == v[j + 1] && v'[j + 1] == v[j + 2];
    }
  }

  /** One character in front of a copied prefix: the step of `ScanKeepsPrefix`. */
  lemma ConsPrefix(s: string, i: int, v: string, r: string, r': string, rest: string)
    requires 0 <= i && |v| > 1 && i + |v| <= |s| && s[i] == v[0] && s[i + 1..i + |v|] == v[1..]
    requires r == [s[i]] + r' && r' == v[1..] + rest
    ensures s[i..i + |v|] == v && r == v + rest
  {
    assert v == [v[0]] + v[1..];
    assert s[i..i + |v|] == [s[i]] + s[i + 1..i + |v|];
  }

  /** A match at the very start of the scan's output would be a match the scan skipped. */
  lemma NoMatchAtScanStart(s: string, w: string, i: int)
    requires WordShaped(w) && 0 <= i < |s| && !BoundedAt(s, w, i)
    ensures !BoundedAfter(RemoveBoundedFrom(s, w, i), w, 0, i > 0 && IsWordChar(s[i - 1]))
  {
    var r := RemoveBoundedFrom(s, w, i);
    if BoundedAfter(r, w, 0, i > 0 && IsWordChar(s[i - 1])) {
      assert r[..|w|] == r[0..|w|] == w;
      ScanKeepsPrefix(s, w, i, w);
      var j := i + |w|;
      assert s[j - 1] == s[i..j][|w| - 1] == w[|w| - 1];
      if j < |s| {
        AfterWordCharKept(s, w, j);
        assert r[|w|] == s[j];
      }
      assert BoundedAt(s, w, i);
    }
  }

  /** A match in a text with one more character in front is a match in the rest, with that
      character as its left neighbour. */
  lemma ShiftBounded(c: char, t: string, w: string, q: int, leftWord: bool)
    requires 0 < q && BoundedAfter([c] + t, w, q, leftWord)
    ensures BoundedAfter(t, w, q - 1, IsWordChar(c))
  {
    var u := [c] + t;
    assert u[q..q + |w|] == t[q - 1..q - 1 + |w|];
    if q == 1 {
      assert u[0] == c && u[1] == t[0];
    } else {
      assert u[q - 1] == t[q - 2] && u[q] == t[q - 1];
    }
    if q + |w| < |u| {
      assert u[q + |w|] == t[q - 1 + |w|];
    }
    assert u[q + |w| - 1] == t[q - 1 + |w| - 1];
  }

  /** Where the scan drops a match at `i`, its output is the output after the match, which
      starts with a non-word character; so the left neighbour no longer matters. */
  lemma MatchDroppedClears(s: string, w: string, i: int, q: int, leftWord: bool)
    requires WordShaped(w) && BoundedAt(s, w, i)
    requires var j := i + |w|;
      !BoundedAfter(RemoveBoundedFrom(s, w, j), w, q, j > 0 && IsWordChar(s[j - 1]))
    ensures !BoundedAfter(RemoveBoundedFrom(s, w, i), w, q, leftWord)
  {
    if q == 0 {
      AfterMatchStartsBlank(s, w, i);
      assert w[0] == w[0..|w|][0];
    }
  }

  /** Where the scan keeps the character at `i`, a match further on in its output is a match in
      the output from `i + 1`, with that character as the left neighbour. */
  lemma CharKeptClears(s: string, w: string, i: int, q: int, leftWord: bool)
    requires WordShaped(w) && 0 <= i < |s| && !BoundedAt(s, w, i) && 0 < q
    requires !BoundedAfter(RemoveBoundedFrom(s, w, i + 1), w, q - 1, IsWordChar(s[i]))
    ensures !BoundedAfter(RemoveBoundedFrom(s, w, i), w, q, leftWord)
  {
    var r' := RemoveBoundedFrom(s, w, i + 1);
    assert RemoveBoundedFrom(s, w, i) == [s[i]] + r';
    if BoundedAfter([s[i]] + r', w, q, leftWord) {
      ShiftBounded(s[i], r', w, q, leftWord);
    }
  }

  /** The scan from `i` leaves no whole-word match of a word-shaped `w`, the character before
      position `i` standing to the left of its output. */
  lemma {:induction false} RemoveBoundedFromClears(s: string, w: string, i: int, q: int)
    requires WordShaped(w) && 0 <= i <= |s|
    ensures !BoundedAfter(RemoveBoundedFrom(s, w, i), w, q, i > 0 && IsWordChar(s[i - 1]))
    decreases |s| - i
  {
    if i < |s| {
      var lw := i > 0 && IsWordChar(s[i - 1]);
      if BoundedAt(s, w, i) {
        RemoveBoundedFromClears(s, w, i + |w|, q);
        MatchDroppedClears(s, w, i, q, lw);
      } else if q == 0 {
        NoMatchAtScanStart(s, w, i);
      } else if q > 0 {
        RemoveBoundedFromClears(s, w, i + 1, q - 1);
        CharKeptClears(s, w, i, q, lw);
      }
    }
  }

  /** `re.search(r'\b' + w + r'\b', t)` finds nothing. */
  predicate NoWholeWord(t: string, w: string)
  {
    forall q :: 0 <= q <= |t| ==> !BoundedAt(t, w, q)
  }

  /** Dropping `\b<w>\b` leaves no whole-word occurrence of a word-shaped `w`. */
  lemma RemoveBoundedClears(s: string, w: string)
    requires WordShaped(w)
    ensures NoWholeWord(RemoveBounded(s, w), w)
  {
    var r := RemoveBounded(s, w);
    forall q
      ensures !BoundedAt(r, w, q)
    {
      RemoveBoundedFromClears(s, w, 0, q);
    }
  }

  // ---------------------------------------------------------------------------
  // re.sub(r'\s+', ' ', s)

  /** No two whitespace characters stand next to each other. */
  predicate NoSpaceRun(s: string)
  {
    forall i :: 0 <= i < |s| - 1 ==> !(IsSpace(s[i]) && IsSpace(s[i + 1]))
  }

  /** The only whitespace character is the plain space. */
  predicate OnlyBlanks(s: string)
  {
    forall i :: 0 <= i < |s| && IsSpace(s[i]) ==> s[i] == ' '
  }

  function CollapseSpace(s: string): string
    decreases |s|
  {
    if s == [] then []
    else if IsSpace(s[0]) then
      var t := DropLeading(s, Whitespace);
      assert |t| < |s|;
      " " + CollapseSpace(t)
    else [s[0]] + CollapseSpace(s[1..])
  }

  /** After `\s+` is replaced by a space, every whitespace character is a lone space, and the
      text is empty or starts as before exactly when the input was. */
  lemma {:induction false} CollapseSpaceSpec(s: string)
    ensures NoSpaceRun(CollapseSpace(s)) && OnlyBlanks(CollapseSpace(s))
    ensures CollapseSpace(s) == [] <==> s == []
    ensures s != [] ==> IsSpace(CollapseSpace(s)[0]) == IsSpace(s[0])
    decreases |s|
  {
    if s == [] {
    } else if IsSpace(s[0]) {
      var t := DropLeading(s, Whitespace);
      CollapseSpaceSpec(t);
      var r := CollapseSpace(s);
      assert r == " " + CollapseSpace(t);
    } else {
      CollapseSpaceSpec(s[1..]);
      var r := CollapseSpace(s);
      assert r == [s[0]] + CollapseSpace(s[1..]);
    }
  }

  /** The collapsed text is empty, or starts with a blank, exactly when the text does. */
  lemma CollapseSpaceStart(s: string)
    ensures (CollapseSpace(s) == [] || IsSpace(CollapseSpace(s)[0])) == (s == [] || IsSpace(s[0]))
  {
  }

  /** Replacing every run of whitespace by one space leaves `split()` unchanged. */
  lemma {:induction false} CollapseSpaceKeepsWords(s: string)
    ensures Words(CollapseSpace(s)) == Words(s)
    decreases |s|, 1
  {
    if s == [] {
    } else if IsSpace(s[0]) {
      KeepsWordsAfterBlank(s);
    } else {
      KeepsWordsAfterChar(s);
    }
  }

  lemma {:induction false} KeepsWordsAfterBlank(s: string)
    requires s != [] && IsSpace(s[0])
    ensures Words(CollapseSpace(s)) == Words(s)
    decreases |s|, 0
  {
    var t := DropLeading(s, Whitespace);
    var ct := CollapseSpace(t);
    CollapseSpaceKeepsWords(t);
    CollapseSpaceStart(t);
    assert CollapseSpace(s) == " " + ct;
    WordsSkipSpace(ct);
    WordsDropLeading(s);
  }

  lemma {:induction false} KeepsWordsAfterChar(s: string)
    requires s != [] && !IsSpace(s[0])
    ensures Words(CollapseSpace(s)) == Words(s)
    decreases |s|, 0
  {
    var c, r := s[0], s[1..];
    var cr := CollapseSpace(r);
    CollapseSpaceKeepsWords(r);
    CollapseSpaceStart(r);
    assert CollapseSpace(s) == [c] + cr;
    assert s == [c] + r;
    WordsConsSame(c, cr, r);
  }

  /** Both predicates survive cutting out a piece of the text. */
  lemma BlanksInInfix(s: string, a: int, b: int)
    requires 0 <= a <= b <= |s|
    requires NoSpaceRun(s) && OnlyBlanks(s)
    ensures NoSpaceRun(s[a..b]) && OnlyBlanks(s[a..b])
  {
    var t := s[a..b];
    forall i | 0 <= i < |t| - 1
      ensures !(IsSpace(t[i]) && IsSpace(t[i + 1]))
    {
      assert t[i] == s[a + i] && t[i + 1] == s[a + i + 1];
    }
  }

  lemma StripKeepsBlanks(s: string)
    requires NoSpaceRun(s) && OnlyBlanks(s)
    ensures NoSpaceRun(Strip(s)) && OnlyBlanks(Strip(s))
  {
    var a := StripIsTrimmedInfix(s);
    BlanksInInfix(s, a, a + |Strip(s)|);
  }

  // ---------------------------------------------------------------------------
  // re.sub(r'^\W+|\W+$', '', s)

  /** Drops the leading run and the trailing run of non-word characters. */
  function TrimNonWord(s: string): string
  {
    DropTrailing(DropLeading(s, NonWord), NonWord)
  }

  /** The trimmed text is a piece of the input that is empty or starts and ends with a word
      character, and only non-word characters were cut away. */
  lemma TrimNonWordSpec(s: string) returns (a: nat)
    ensures a + |TrimNonWord(s)| <= |s| && TrimNonWord(s) == s[a..a + |TrimNonWord(s)|]
    ensures forall i :: 0 <= i < a ==> !IsWordChar(s[i])
    ensures forall i :: a + |TrimNonWord(s)| <= i < |s| ==> !IsWordChar(s[i])
    ensures TrimNonWord(s) == [] ||
      (IsWordChar(TrimNonWord(s)[0]) && IsWordChar(TrimNonWord(s)[|TrimNonWord(s)| - 1]))
  {
    var l := DropLeading(s, NonWord);
    var t := DropTrailing(l, NonWord);
    assert t == TrimNonWord(s);
    a := TrimmedInfix(s, l, t, NonWord);
    assert t == [] || (IsWordChar(t[0]) && IsWordChar(t[|t| - 1]));
  }

  lemma TrimKeepsBlanks(s: string)
    requires NoSpaceRun(s) && OnlyBlanks(s)
    ensures NoSpaceRun(TrimNonWord(s)) && OnlyBlanks(TrimNonWord(s))
  {
    var a := TrimNonWordSpec(s);
    BlanksInInfix(s, a, a + |TrimNonWord(s)|);
  }
}
