/** `BaseNspdClient.iter_cn` (client.py): the cadastral numbers in a text, as
    `re.findall(r"\d+:\d+:\d+:\d+", ...)` finds them. A greedy `\d+` followed by
    a colon cannot succeed by backtracking (the character after a shorter run
    is a digit), so a match from a position is made of maximal digit runs. */
module Scanner {
  import opened Wrappers
  import opened Seqs

  predicate IsDigit(c: char)
  {
    '0' <= c <= '9'
  }

  predicate AllDigits(s: string)
  {
    forall k :: 0 <= k < |s| ==> IsDigit(s[k])
  }

  /** A cadastral number: four non-empty digit runs joined by colons. */
  ghost predicate IsCn(t: string)
  {
    exists a: string, b: string, c: string, d: string {:trigger a + ":" + b + ":" + c + ":" + d} ::
      a != [] && b != [] && c != [] && d != [] &&
      AllDigits(a) && AllDigits(b) && AllDigits(c) && AllDigits(d) &&
      t == a + ":" + b + ":" + c + ":" + d
  }

  /** End of the maximal digit run starting at `i`. */
  function DigitRunEnd(s: string, i: nat): (j: nat)
    requires i <= |s|
    ensures i <= j <= |s|
    ensures j == |s| || !IsDigit(s[j])
    decreases |s| - i
  {
    if i < |s| && IsDigit(s[i]) then DigitRunEnd(s, i + 1) else i
  }

  /** The run consists of digits only. */
  lemma {:induction false} DigitRunIsDigits(s: string, i: nat)
    requires i <= |s|
    ensures forall k :: i <= k < DigitRunEnd(s, i) ==> IsDigit(s[k])
    decreases |s| - i
  {
    if i < |s| && IsDigit(s[i]) {
      DigitRunIsDigits(s, i + 1);
    }
  }

  /** A non-empty digit run from `i`, then a colon: the position after the colon. */
  function RunThenColon(s: string, i: nat): (r: Option<nat>)
    requires i <= |s|
    ensures r.Some? ==> i + 2 <= r.value <= |s|
  {
    var j := DigitRunEnd(s, i);
    if i < j < |s| && s[j] == ':' then Some(j + 1) else None
  }

  /** `n` groups of a non-empty digit run and a colon from `i`: the position
      after the last colon. */
  function Groups(s: string, i: nat, n: nat): (r: Option<nat>)
    requires i <= |s|
    ensures r.Some? ==> i + 2 * n <= r.value <= |s|
    decreases n
  {
    if n == 0 then Some(i)
    else match RunThenColon(s, i)
      case None => None
      case Some(j) => Groups(s, j, n - 1)
  }

  /** The end of the match of the pattern at position `i`, if there is one:
      three groups `\d+:`, then a final non-empty digit run. */
  function MatchAt(s: string, i: nat): (r: Option<nat>)
    requires i <= |s|
    ensures r.Some? ==> i + 7 <= r.value <= |s|
  {
    match Groups(s, i, 3)
    case None => None
    case Some(j3) =>
      var j4 := DigitRunEnd(s, j3);
      if j3 < j4 then Some(j4) else None
  }

  /** The matches in `s`, scanning from its start: after a match the scan
      resumes at its end, otherwise one character later. */
  function FindAll(s: string): (r: seq<string>)
    ensures forall k :: 0 <= k < |r| ==> 7 <= |r[k]|
    ensures 7 * |r| <= |s|
    decreases |s|
  {
    if |s| == 0 then []
    else match MatchAt(s, 0)
      case Some(e) => [s[..e]] + FindAll(s[e..])
      case None => FindAll(s[1..])
  }

  /** One step of the scan over a match at the start. */
  lemma FindAllMatch(s: string, e: nat)
    requires s != [] && MatchAt(s, 0) == Some(e)
    ensures FindAll(s) == [s[..e]] + FindAll(s[e..])
  {
  }

  /** One step of the scan where nothing matches at the start. */
  lemma FindAllNoMatch(s: string)
    requires s != [] && MatchAt(s, 0).None?
    ensures FindAll(s) == FindAll(s[1..])
  {
  }

  /** `iter_cn`: every number it yields is a cadastral number occurring in the
      text, and the numbers, at least seven characters each, do not overlap. */
  function IterCn(s: string): (r: seq<string>)
    ensures forall t :: t in r ==> IsCn(t) && Contains(s, t)
    ensures 7 * |r| <= |s|
  {
    FindAllSound(s);
    FindAll(s)
  }

  /** One group is a non-empty digit run followed by a colon. */
  lemma GroupIsRunColon(s: string, i: nat)
    requires i <= |s| && RunThenColon(s, i).Some?
    ensures var j := RunThenColon(s, i).value;
      s[i..j] == s[i..j - 1] + ":" && s[i..j - 1] != [] && AllDigits(s[i..j - 1])
  {
    var j := RunThenColon(s, i).value;
    DigitRunIsDigits(s, i);
    assert s[j - 1] == ':';
    assert s[i..j] == s[i..j - 1] + [s[j - 1]];
  }

  /** A match is three groups and a final digit run. */
  lemma MatchParts(s: string, i: nat) returns (j1: nat, j2: nat, j3: nat)
    requires i <= |s| && MatchAt(s, i).Some?
    ensures i <= j1 <= j2 <= j3 <= |s|
    ensures RunThenColon(s, i) == Some(j1) && RunThenColon(s, j1) == Some(j2) && RunThenColon(s, j2) == Some(j3)
    ensures j3 < DigitRunEnd(s, j3) == MatchAt(s, i).value
  {
    j1 := RunThenColon(s, i).value;
    j2 := RunThenColon(s, j1).value;
    assert Groups(s, i, 3) == Groups(s, j1, 2);
    j3 := RunThenColon(s, j2).value;
    assert Groups(s, j1, 2) == Groups(s, j2, 1) == Some(j3);
  }

  lemma SliceFour(s: string, i: nat, j1: nat, j2: nat, j3: nat, j4: nat)
    requires i <= j1 <= j2 <= j3 <= j4 <= |s|
    ensures s[i..j4] == s[i..j1] + s[j1..j2] + s[j2..j3] + s[j3..j4]
  {
    SliceSplit(s, i, j3, j4);
    SliceSplit(s, i, j2, j3);
    SliceSplit(s, i, j1, j2);
  }

  lemma SliceSplit(s: string, i: nat, j: nat, k: nat)
    requires i <= j <= k <= |s|
    ensures s[i..k] == s[i..j] + s[j..k]
  {
    assert forall m :: 0 <= m < k - i ==> s[i..k][m] == (s[i..j] + s[j..k])[m];
  }

  lemma JoinFour(a: string, b: string, c: string, d: string)
    ensures (a + ":") + (b + ":") + (c + ":") + d == a + ":" + b + ":" + c + ":" + d
  {
  }

  /** Every match is a cadastral number. */
  lemma MatchIsCn(s: string, i: nat)
    requires i <= |s| && MatchAt(s, i).Some?
    ensures IsCn(s[i..MatchAt(s, i).value])
  {
    var j1, j2, j3 := MatchParts(s, i);
    var j4 := MatchAt(s, i).value;
    GroupIsRunColon(s, i);
    GroupIsRunColon(s, j1);
    GroupIsRunColon(s, j2);
    DigitRunIsDigits(s, j3);
    var a, b, c, d := s[i..j1 - 1], s[j1..j2 - 1], s[j2..j3 - 1], s[j3..j4];
    assert AllDigits(d);
    SliceFour(s, i, j1, j2, j3, j4);
    JoinFour(a, b, c, d);
  }

  /** Everything `iter_cn` yields is a cadastral number that occurs in the text. */
  lemma {:induction false} FindAllSound(s: string)
    ensures forall t :: t in FindAll(s) ==> IsCn(t) && Contains(s, t)
    decreases |s|
  {
    if s != [] {
      match MatchAt(s, 0)
      case Some(e) =>
        FindAllSound(s[e..]);
        MatchIsCn(s, 0);
        assert s[0..e] == s[..e];
        ContainsAt(s, s[..e], 0);
        forall t | t in FindAll(s[e..]) ensures Contains(s, t) {
          ContainsInSuffix(s, e, t);
        }
      case None =>
        FindAllSound(s[1..]);
        forall t | t in FindAll(s[1..]) ensures Contains(s, t) {
          ContainsInSuffix(s, 1, t);
        }
    }
  }

  /** What occurs in a suffix occurs in the text. */
  lemma ContainsInSuffix(s: string, e: nat, t: string)
    requires e <= |s| && Contains(s[e..], t)
    ensures Contains(s, t)
  {
    var k := ContainsWitness(s[e..], t);
    assert s[e + k..e + k + |t|] == s[e..][k..k + |t|];
    ContainsAt(s, t, e + k);
  }

  /** The digit run is located by its end: all digits up to `k`, none at `k`. */
  lemma {:induction false} DigitRunEndAt(s: string, i: nat, k: nat)
    requires i <= k <= |s|
    requires forall m :: i <= m < k ==> IsDigit(s[m])
    requires k == |s| || !IsDigit(s[k])
    ensures DigitRunEnd(s, i) == k
    decreases k - i
  {
    if i < k {
      DigitRunEndAt(s, i + 1, k);
    }
  }

  /** A digit run inside `a` ends at the same place in `a + t` when `t` does
      not start with a digit. */
  lemma DigitRunEndPrefix(a: string, t: string, j: nat)
    requires j <= |a|
    requires t == [] || !IsDigit(t[0])
    ensures DigitRunEnd(a + t, j) == DigitRunEnd(a, j)
  {
    var k := DigitRunEnd(a, j);
    DigitRunIsDigits(a, j);
    if k < |a| {
      assert (a + t)[k] == a[k];
    } else if t != [] {
      assert (a + t)[k] == t[0];
    }
    DigitRunEndAt(a + t, j, k);
  }

  lemma RunThenColonPrefix(a: string, t: string, j: nat)
    requires j <= |a|
    requires t == [] || (!IsDigit(t[0]) && t[0] != ':')
    ensures RunThenColon(a + t, j) == RunThenColon(a, j)
  {
    DigitRunEndPrefix(a, t, j);
    var k := DigitRunEnd(a, j);
    if k < |a| {
      assert (a + t)[k] == a[k];
    } else if t != [] {
      assert (a + t)[k] == t[0];
    }
  }

  /** Looking further right than a non-digit, non-colon character cannot change a
      match attempt that starts left of it. */
  lemma MatchAtPrefix(a: string, t: string, i: nat)
    requires i <= |a|
    requires t == [] || (!IsDigit(t[0]) && t[0] != ':')
    ensures MatchAt(a + t, i) == MatchAt(a, i)
  {
    GroupsPrefix(a, t, i, 3);
    if Groups(a, i, 3).Some? {
      DigitRunEndPrefix(a, t, Groups(a, i, 3).value);
    }
  }

  lemma {:induction false} GroupsPrefix(a: string, t: string, i: nat, n: nat)
    requires i <= |a|
    requires t == [] || (!IsDigit(t[0]) && t[0] != ':')
    ensures Groups(a + t, i, n) == Groups(a, i, n)
    decreases n
  {
    if n > 0 {
      RunThenColonPrefix(a, t, i);
      if RunThenColon(a, i).Some? {
        GroupsPrefix(a, t, RunThenColon(a, i).value, n - 1);
      }
    }
  }

  /** Scanning `a + t` yields the matches of `a` and then those of `t`,
      provided `t` cannot extend a match of `a`: it starts with a character
      that is neither a digit nor a colon. */
  lemma {:induction false} FindAllPrefix(a: string, t: string)
    requires t != [] && !IsDigit(t[0]) && t[0] != ':'
    ensures FindAll(a + t) == FindAll(a) + FindAll(t)
    decreases |a|
  {
    if a == [] {
      PrefixEmptyStep(a, t);
    } else if MatchAt(a, 0).Some? {
      var e := MatchAt(a, 0).value;
      MatchAtPrefix(a, t, 0);
      FindAllPrefix(a[e..], t);
      PrefixMatchStep(a, t, e);
    } else {
      MatchAtPrefix(a, t, 0);
      FindAllPrefix(a[1..], t);
      PrefixNoMatchStep(a, t);
    }
  }

  lemma PrefixEmptyStep(a: string, t: string)
    requires a == []
    ensures FindAll(a + t) == FindAll(a) + FindAll(t)
  {
    assert a + t == t;
  }

  lemma PrefixMatchStep(a: string, t: string, e: nat)
    requires a != [] && MatchAt(a, 0) == Some(e) && MatchAt(a + t, 0) == Some(e)
    requires FindAll(a[e..] + t) == FindAll(a[e..]) + FindAll(t)
    ensures FindAll(a + t) == FindAll(a) + FindAll(t)
  {
    SliceConcat(a, t, e);
    FindAllMatch(a, e);
    FindAllMatch(a + t, e);
    AppendAssoc([a[..e]], FindAll(a[e..]), FindAll(t));
  }

  lemma PrefixNoMatchStep(a: string, t: string)
    requires a != [] && MatchAt(a, 0).None? && MatchAt(a + t, 0).None?
    requires FindAll(a[1..] + t) == FindAll(a[1..]) + FindAll(t)
    ensures FindAll(a + t) == FindAll(a) + FindAll(t)
  {
    SliceConcat(a, t, 1);
    FindAllNoMatch(a);
    FindAllNoMatch(a + t);
  }

  /** Text without digits holds no match and is skipped. */
  lemma {:induction false} FindAllSkipsSeparator(sep: string, b: string)
    requires forall m :: 0 <= m < |sep| ==> !IsDigit(sep[m])
    ensures FindAll(sep + b) == FindAll(b)
    decreases |sep|
  {
    if sep == [] {
      assert sep + b == b;
    } else {
      NoMatchAtNonDigit(sep + b);
      FindAllNoMatch(sep + b);
      SliceConcat(sep, b, 1);
      FindAllSkipsSeparator(sep[1..], b);
    }
  }

  /** No match starts at a character that is not a digit. */
  lemma NoMatchAtNonDigit(s: string)
    requires s != [] && !IsDigit(s[0])
    ensures MatchAt(s, 0).None?
  {
    assert DigitRunEnd(s, 0) == 0;
  }

  /** Matches are found left to right and never straddle a separator made of
      characters that are neither digits nor colons. */
  lemma IterCnConcat(a: string, sep: string, b: string)
    requires sep != []
    requires forall m :: 0 <= m < |sep| ==> !IsDigit(sep[m]) && sep[m] != ':'
    ensures IterCn(a + sep + b) == IterCn(a) + IterCn(b)
  {
    var rest := sep + b;
    AppendAssoc(a, sep, b);
    assert rest[0] == sep[0];
    FindAllPrefix(a, rest);
    FindAllSkipsSeparator(sep, b);
  }

  /** A non-empty digit run `x` followed by a colon at `i` is one group. */
  lemma GroupAt(t: string, i: nat, x: string)
    requires x != [] && AllDigits(x)
    requires i + |x| < |t| && t[i..i + |x|] == x && t[i + |x|] == ':'
    ensures RunThenColon(t, i) == Some(i + |x| + 1)
  {
    forall m | i <= m < i + |x| ensures IsDigit(t[m]) {
      assert t[m] == x[m - i];
    }
    DigitRunEndAt(t, i, i + |x|);
  }

  /** A digit run `x` that ends the text. */
  lemma RunToEnd(t: string, i: nat, x: string)
    requires i <= |t| && t[i..] == x && AllDigits(x)
    ensures DigitRunEnd(t, i) == |t|
  {
    forall m | i <= m < |t| ensures IsDigit(t[m]) {
      assert t[m] == x[m - i];
    }
    DigitRunEndAt(t, i, |t|);
  }

  /** Where the parts of a cadastral number sit in its text. */
  lemma CnLayout(a: string, b: string, c: string, d: string)
    ensures var t := a + ":" + b + ":" + c + ":" + d;
      var j1 := |a| + 1;
      var j2 := j1 + |b| + 1;
      var j3 := j2 + |c| + 1;
      |t| == j3 + |d| &&
      t[0..|a|] == a && t[|a|] == ':' &&
      t[j1..j1 + |b|] == b && t[j2 - 1] == ':' &&
      t[j2..j2 + |c|] == c && t[j3 - 1] == ':' &&
      t[j3..] == d
  {
  }

  /** The pattern matches a whole cadastral number from its first character. */
  lemma MatchAtOfCn(a: string, b: string, c: string, d: string)
    requires a != [] && b != [] && c != [] && d != []
    requires AllDigits(a) && AllDigits(b) && AllDigits(c) && AllDigits(d)
    ensures MatchAt(a + ":" + b + ":" + c + ":" + d, 0) == Some(|a + ":" + b + ":" + c + ":" + d|)
  {
    var t := a + ":" + b + ":" + c + ":" + d;
    var j1 := |a| + 1;
    var j2 := j1 + |b| + 1;
    var j3 := j2 + |c| + 1;
    CnLayout(a, b, c, d);
    GroupAt(t, 0, a);
    GroupAt(t, j1, b);
    GroupAt(t, j2, c);
    RunToEnd(t, j3, d);
    assert Groups(t, j2, 1) == Some(j3);
    assert Groups(t, j1, 2) == Some(j3);
    assert Groups(t, 0, 3) == Some(j3);
  }

  /** A cadastral number on its own is found, whole, exactly once. */
  lemma IterCnOfCn(t: string)
    requires IsCn(t)
    ensures IterCn(t) == [t]
  {
    var a: string, b: string, c: string, d: string :|
      a != [] && b != [] && c != [] && d != [] &&
      AllDigits(a) && AllDigits(b) && AllDigits(c) && AllDigits(d) &&
      t == a + ":" + b + ":" + c + ":" + d;
    MatchAtOfCn(a, b, c, d);
    FindAllMatch(t, |t|);
    assert t[..|t|] == t;
    assert t[|t|..] == [];
  }

  /** Two numbers separated by text without digits or colons come out in order. */
  lemma IterCnTwo(x: string, sep: string, y: string)
    requires IsCn(x) && IsCn(y)
    requires sep != []
    requires forall m :: 0 <= m < |sep| ==> !IsDigit(sep[m]) && sep[m] != ':'
    ensures IterCn(x + sep + y) == [x, y]
  {
    IterCnConcat(x, sep, y);
    IterCnOfCn(x);
    IterCnOfCn(y);
  }
}
