/**
 * The order in which the segment files are merged (`merge_to_mp4`): the
 * sequence key of each `.ts` name (`extract_sequence_number`), the stable
 * sort of the names by that key, and the concat list handed to ffmpeg.
 * The regular expressions of the key cascade are written out as matchers
 * that find their leftmost match.
 */
module Ordering {
  import opened Wrappers
  import opened Text

  /** A sort key: an integer, or the name itself when it has no digit. */
  datatype Key = Num(n: nat) | Name(s: string)

  /** `int()` of the maximal run of digits that starts at `i`. */
  function RunValue(s: string, i: nat): nat
    requires i <= |s|
  {
    DigitsValue(s[i..DigitRunEnd(s, i)])
  }

  /** `lit` occurs at `i` and a digit follows it. */
  predicate LiteralDigitsAt(s: string, lit: string, i: nat) {
    i + |lit| < |s| && s[i..i + |lit|] == lit && IsDigit(s[i + |lit|])
  }

  /**
   * The first match of `lit(\d+)` at or after `from`, as `re.findall(...)[0]`
   * reads it: the digits that follow the leftmost occurrence of `lit` that
   * is followed by a digit.
   */
  function FirstLiteralDigits(s: string, lit: string, from: nat): (r: Option<nat>)
    requires from <= |s|
    ensures r.None? <==> forall i :: from <= i <= |s| ==> !LiteralDigitsAt(s, lit, i)
    ensures r.Some? ==> exists i :: from <= i < |s| && LiteralDigitsAt(s, lit, i) && r.value == RunValue(s, i + |lit|)
                                    && forall j :: from <= j < i ==> !LiteralDigitsAt(s, lit, j)
    decreases |s| - from
  {
    if from == |s| then None
    else if LiteralDigitsAt(s, lit, from) then Some(RunValue(s, from + |lit|))
    else FirstLiteralDigits(s, lit, from + 1)
  }

  /** The start of the maximal run of digits that ends at `j`. */
  function DigitRunStart(s: string, j: nat): (i: nat)
    requires j <= |s|
    ensures i <= j
    ensures AllDigits(s[i..j])
    ensures i == 0 || !IsDigit(s[i - 1])
  {
    if j > 0 && IsDigit(s[j - 1]) then
      var i := DigitRunStart(s, j - 1);
      assert s[i..j] == s[i..j - 1] + [s[j - 1]];
      i
    else j
  }

  /** Where `$` can match: the end of the string, or just before a final newline. */
  function TsEnd(s: string): Option<nat> {
    if EndsWith(s, ".ts") then Some(|s| - 3)
    else if EndsWith(s, ".ts\n") then Some(|s| - 4)
    else None
  }

  /**
   * The digit run that `(\d+)\.ts$` can capture: it ends where `.ts` starts
   * at the end of the name, and it is not empty. Returned as its bounds.
   */
  function TailRun(s: string): (r: Option<(nat, nat)>)
    ensures r.Some? ==> r.value.0 < r.value.1 <= |s| && AllDigits(s[r.value.0..r.value.1])
    ensures r.Some? ==> r.value.0 == 0 || !IsDigit(s[r.value.0 - 1])
  {
    match TsEnd(s)
    case None => None
    case Some(d) =>
      var l := DigitRunStart(s, d);
      if l < d then Some((l, d)) else None
  }

  /** The value of the digits that `(\d+)\.ts$` captures, when it matches. */
  function TailValue(s: string): Option<nat> {
    match TailRun(s)
    case Some((l, d)) => Some(DigitsValue(s[l..d]))
    case None => None
  }

  /** `[a-zA-Z]+-(\d+)\.ts$` */
  function LetterDashTail(s: string): (r: Option<nat>)
    ensures r.Some? ==> r == TailValue(s) && HasDigit(s)
  {
    match TailRun(s)
    case Some((l, d)) =>
      if l > 1 && s[l - 1] == '-' && IsLetter(s[l - 2]) then TailNeedsDigit(s); Some(DigitsValue(s[l..d])) else None
    case None => None
  }

  /** `_(\d+)\.ts$` */
  function UnderscoreTail(s: string): (r: Option<nat>)
    ensures r.Some? ==> r == TailValue(s) && HasDigit(s) && LetterDashTail(s).None?
  {
    match TailRun(s)
    case Some((l, d)) => if l > 0 && s[l - 1] == '_' then TailNeedsDigit(s); Some(DigitsValue(s[l..d])) else None
    case None => None
  }

  /** `([a-zA-Z]+)(\d+)\.ts$`: letters right before the tail digits. */
  function LetterTail(s: string): (r: Option<nat>)
    ensures r.Some? ==> r == TailValue(s) && HasDigit(s) && UnderscoreTail(s).None? && LetterDashTail(s).None?
  {
    match TailRun(s)
    case Some((l, d)) => if l > 0 && IsLetter(s[l - 1]) then TailNeedsDigit(s); Some(DigitsValue(s[l..d])) else None
    case None => None
  }

  /** `[a-zA-Z]+_(\d+)\.ts$` */
  function LetterUnderscoreTail(s: string): (r: Option<nat>)
    ensures r.Some? ==> r == TailValue(s) && HasDigit(s) && LetterTail(s).None? && LetterDashTail(s).None?
  {
    match TailRun(s)
    case Some((l, d)) =>
      if l > 1 && s[l - 1] == '_' && IsLetter(s[l - 2]) then TailNeedsDigit(s); Some(DigitsValue(s[l..d])) else None
    case None => None
  }

  /** The eight patterns, in the order they are tried. */
  function Pattern(k: nat, s: string): (r: Option<nat>)
    requires k < 8
    ensures 3 <= k <= 6 && r.Some? ==> r == TailValue(s)
  {
    if k == 0 then FirstLiteralDigits(s, "seg-", 0)
    else if k == 1 then FirstLiteralDigits(s, "segment", 0)
    else if k == 2 then FirstLiteralDigits(s, "index", 0)
    else if k == 3 then LetterTail(s)
    else if k == 4 then UnderscoreTail(s)
    else if k == 5 then LetterUnderscoreTail(s)
    else if k == 6 then LetterDashTail(s)
    else FirstLiteralDigits(s, "", 0)
  }

  /** The value of the first pattern, from the `k`-th on, that matches. */
  function Cascade(s: string, k: nat): (r: Option<nat>)
    requires k <= 8
    ensures r.Some? ==> exists j :: k <= j < 8 && Pattern(j, s) == r && forall i :: k <= i < j ==> Pattern(i, s).None?
    ensures r.None? ==> forall j :: k <= j < 8 ==> Pattern(j, s).None?
    decreases 8 - k
  {
    if k == 8 then None
    else if Pattern(k, s).Some? then Pattern(k, s)
    else Cascade(s, k + 1)
  }

  /** The name starts like the downloader's numbered files: at least 8 characters, the first 4 digits. */
  predicate NumberedLike(s: string) {
    |s| >= 8 && AllDigits(s[..4])
  }

  /** `extract_sequence_number(name)` as written: the numbered rule reads exactly 4 digits. */
  function KeyAsWritten(s: string): (r: Key)
    ensures NumberedLike(s) ==> r.Num? && r.n < 10000
    ensures r.Name? ==> r.s == s
  {
    if NumberedLike(s) then DigitsBelow(s[..4]); assert Pow10(4) == 10000; Num(DigitsValue(s[..4]))
    else match Cascade(s, 0)
      case Some(n) => Num(n)
      case None => Name(s)
  }

  /** The sequence key, the numbered rule reading the whole leading run of digits. */
  function SequenceKey(s: string): (r: Key)
    ensures !NumberedLike(s) || !IsDigit(s[4]) ==> r == KeyAsWritten(s)
    ensures NumberedLike(s) ==> r.Num? && r.n >= KeyAsWritten(s).n
    ensures r.Name? ==> r.s == s
  {
    if NumberedLike(s) then NumberedRun(s); Num(RunValue(s, 0))
    else match Cascade(s, 0)
      case Some(n) => Num(n)
      case None => Name(s)
  }

  /** A literal pattern matches only where a digit follows the literal. */
  lemma LiteralNeedsDigit(s: string, lit: string)
    requires FirstLiteralDigits(s, lit, 0).Some?
    ensures HasDigit(s)
  {
    var i :| 0 <= i < |s| && LiteralDigitsAt(s, lit, i);
    assert IsDigit(s[i + |lit|]);
  }

  /** A tail pattern matches only on a non-empty run of digits. */
  lemma TailNeedsDigit(s: string)
    requires TailRun(s).Some?
    ensures HasDigit(s)
  {
    var r := TailRun(s).value;
    assert IsDigit(s[r.0]) by { assert s[r.0] == s[r.0..r.1][0]; }
  }

  lemma PatternNeedsDigit(k: nat, s: string)
    requires k < 8 && Pattern(k, s).Some?
    ensures HasDigit(s)
  {
    if k == 0 {
      LiteralNeedsDigit(s, "seg-");
    } else if k == 1 {
      LiteralNeedsDigit(s, "segment");
    } else if k == 2 {
      LiteralNeedsDigit(s, "index");
    } else if k == 7 {
      LiteralNeedsDigit(s, "");
    } else {
      TailNeedsDigit(s);
    }
  }

  lemma DigitMatchesLast(s: string)
    requires HasDigit(s)
    ensures Pattern(7, s).Some?
  {
    var k :| 0 <= k < |s| && IsDigit(s[k]);
    assert LiteralDigitsAt(s, "", k);
  }

  /**
   * The cascade finds a number exactly when the name has a digit, because
   * the last pattern matches any digit. So the fallback that re-scans the
   * name for digits after the cascade is never reached with a digit, and a
   * name gets itself as key exactly when it has no digit.
   */
  lemma CascadeFindsEveryDigit(s: string)
    ensures Cascade(s, 0).Some? <==> HasDigit(s)
    ensures SequenceKey(s).Name? <==> !HasDigit(s)
    ensures KeyAsWritten(s).Name? <==> !HasDigit(s)
  {
    if HasDigit(s) {
      DigitMatchesLast(s);
    } else {
      forall k | 0 <= k < 8
        ensures Pattern(k, s).None?
      {
        if Pattern(k, s).Some? {
          PatternNeedsDigit(k, s);
        }
      }
    }
    if NumberedLike(s) {
      assert IsDigit(s[..4][0]);
    }
  }

  /** Whenever `[a-zA-Z]+_(\d+)\.ts$` matches, `_(\d+)\.ts$` has already matched with the same digits. */
  lemma LetterUnderscoreSubsumed(s: string)
    requires LetterUnderscoreTail(s).Some?
    ensures UnderscoreTail(s) == LetterUnderscoreTail(s)
  {
  }

  lemma NumberedNameShape(i: nat)
    ensures var s := NumberedName(i);
            && |s| == |Pad4(i)| + 3
            && AllDigits(s[..|Pad4(i)|]) && s[..|Pad4(i)|] == Pad4(i)
            && s[|Pad4(i)|..] == ".ts"
            && DigitRunEnd(s, 0) == |Pad4(i)|
  {
    var s := NumberedName(i);
    var p := Pad4(i);
    assert s[..|p|] == p;
    assert s[|p|..] == ".ts";
    assert !IsDigit(s[|p|]);
    RunFromStart(s, |p|);
  }

  lemma RunFromStart(s: string, n: nat)
    requires n < |s| && AllDigits(s[..n]) && !IsDigit(s[n])
    ensures DigitRunEnd(s, 0) == n
  {
    RunFrom(s, 0, n);
  }

  lemma {:induction false} RunFrom(s: string, i: nat, n: nat)
    requires i <= n < |s| && AllDigits(s[..n]) && !IsDigit(s[n])
    ensures DigitRunEnd(s, i) == n
    decreases n - i
  {
    if i < n {
      assert IsDigit(s[..n][i]);
      RunFrom(s, i + 1, n);
    }
  }

  /** A literal whose second character never occurs in `s` does not occur in `s`. */
  lemma NoLiteralIn(s: string, lit: string)
    requires |lit| >= 2
    requires forall k :: 0 <= k < |s| ==> s[k] != lit[1]
    ensures FirstLiteralDigits(s, lit, 0).None?
  {
    forall i | 0 <= i <= |s|
      ensures !LiteralDigitsAt(s, lit, i)
    {
      if i + |lit| < |s| {
        assert s[i..i + |lit|][1] == s[i + 1];
      }
    }
  }

  /** Below 10000 the numbered name is four digits then `.ts`. */
  lemma NumberedChars(i: nat)
    requires i < 10000
    ensures var s := NumberedName(i);
            && |s| == 7 && AllDigits(s[..4]) && s[..4] == Pad4(i) && s[4..] == ".ts"
            && DigitRunEnd(s, 0) == 4
            && forall k :: 0 <= k < |s| ==> IsDigit(s[k]) || s[k] == '.' || s[k] == 't' || s[k] == 's'
  {
    var s := NumberedName(i);
    Pad4Shape(i);
    NumberedNameShape(i);
    forall k | 0 <= k < |s| ensures IsDigit(s[k]) || s[k] == '.' || s[k] == 't' || s[k] == 's' {
      if k < 4 {
        assert s[k] == s[..4][k];
      } else {
        assert s[k] == s[4..][k - 4];
      }
    }
  }

  /** Below 10000 the tail run of the numbered name is its four digits. */
  lemma NumberedTail(i: nat)
    requires i < 10000
    ensures TailRun(NumberedName(i)) == Some((0, 4))
  {
    var s := NumberedName(i);
    NumberedChars(i);
    assert TsEnd(s) == Some(4);
    StartOfDigits(s, 4);
  }

  lemma NumberedCascade(i: nat)
    requires i < 10000
    ensures Cascade(NumberedName(i), 0) == Some(i)
  {
    var s := NumberedName(i);
    NumberedChars(i);
    assert "seg-"[1] == 'e' && "segment"[1] == 'e' && "index"[1] == 'n';
    NoLiteralIn(s, "seg-");
    NoLiteralIn(s, "segment");
    NoLiteralIn(s, "index");
    NumberedTail(i);
    Pad4Value(i);
    assert LiteralDigitsAt(s, "", 0) by { assert IsDigit(s[..4][0]); }
    assert s[0..4] == s[..4];
  }

  lemma {:induction false} StartOfDigits(s: string, j: nat)
    requires j <= |s| && AllDigits(s[..j])
    ensures DigitRunStart(s, j) == 0
  {
    if j > 0 {
      assert IsDigit(s[..j][j - 1]);
      assert s[..j - 1] == s[..j][..j - 1];
      StartOfDigits(s, j - 1);
    }
  }

  /** With the whole leading run read, the downloader's own name for segment `i` has key `i`. */
  lemma NumberedNameKey(i: nat)
    ensures SequenceKey(NumberedName(i)) == Num(i)
  {
    var s := NumberedName(i);
    Pad4Shape(i);
    NumberedNameShape(i);
    Pad4Value(i);
    if i < 10000 {
      NumberedCascade(i);
    } else {
      assert AllDigits(s[..4]) by { assert s[..4] == s[..|Pad4(i)|][..4]; }
    }
  }

  /**
   * Below 10000 the name is only 7 characters long, so the numbered rule
   * does not apply as written either, and the cascade reads the index.
   */
  lemma NumberedKeyAsWrittenBelow(i: nat)
    requires i < 10000
    ensures KeyAsWritten(NumberedName(i)) == Num(i)
  {
    Pad4Shape(i);
    NumberedNameShape(i);
    NumberedCascade(i);
  }

  /** A prefix of a digit string has no larger value. */
  lemma {:induction false} DigitsPrefixLe(s: string, i: nat)
    requires AllDigits(s) && i <= |s|
    ensures DigitsValue(s[..i]) <= DigitsValue(s)
    decreases |s|
  {
    if i < |s| {
      DigitsPrefixLe(s[..|s| - 1], i);
      assert s[..|s| - 1][..i] == s[..i];
    } else {
      assert s[..i] == s;
    }
  }

  /** The leading run of digits of a numbered-like name covers its first four characters. */
  lemma NumberedRun(s: string)
    requires NumberedLike(s)
    ensures DigitsValue(s[..4]) <= RunValue(s, 0)
    ensures !IsDigit(s[4]) ==> RunValue(s, 0) == DigitsValue(s[..4])
  {
    var e := DigitRunEnd(s, 0);
    assert forall k :: 0 <= k < 4 ==> IsDigit(s[k]) by {
      forall k | 0 <= k < 4
        ensures IsDigit(s[k])
      {
        assert s[..4][k] == s[k];
      }
    }
    assert 4 <= e;
    assert s[0..e][..4] == s[..4];
    DigitsPrefixLe(s[0..e], 4);
    assert e > 4 ==> s[0..e][4] == s[4];
  }

  lemma {:induction false} DigitsBelow(s: string)
    requires AllDigits(s)
    ensures DigitsValue(s) < Pow10(|s|)
  {
    if |s| > 0 {
      DigitsBelow(s[..|s| - 1]);
    }
  }

  /**
   * As written, the numbered rule reads only four digits, so from segment
   * 10000 on the downloader's own names get a key that is not their index.
   */
  lemma NumberedKeyAsWrittenTruncates(i: nat)
    requires i >= 10000
    ensures KeyAsWritten(NumberedName(i)).Num? && KeyAsWritten(NumberedName(i)).n < 10000 <= i
  {
    var s := NumberedName(i);
    Pad4Shape(i);
    NumberedNameShape(i);
    assert s[..4] == s[..|Pad4(i)|][..4];
    DigitsBelow(s[..4]);
    assert Pow10(4) == 10000;
  }

  lemma Decimal10000()
    ensures Decimal(10000) == "10000" && Decimal(1000) == "1000"
  {
    assert Decimal(1) == "1";
    assert Decimal(10) == "10";
    assert Decimal(100) == "100";
  }

  lemma Value1000()
    ensures AllDigits("1000") && DigitsValue("1000") == 1000
  {
    assert "1000"[..3] == "100";
    assert "100"[..2] == "10";
    assert "10"[..1] == "1";
  }

  /** The name of segment 10000 begins with the digits `1000`. */
  lemma Name10000()
    ensures NumberedName(10000)[..4] == "1000" && |NumberedName(10000)| == 8
  {
    Decimal10000();
    Pad4Shape(10000);
  }

  /** Segments 1000 and 10000 get the same key as written, so the sort cannot tell them apart. */
  lemma NumberedKeysCollide()
    ensures KeyAsWritten(NumberedName(10000)) == KeyAsWritten(NumberedName(1000)) == Num(1000)
  {
    Name10000();
    Value1000();
    NumberedKeyAsWrittenBelow(1000);
  }

  /** Python's `<=` on strings: code point by code point, a proper prefix first. */
  predicate NameLe(a: string, b: string)
    decreases |a|
  {
    |a| == 0 || (|b| > 0 && (a[0] < b[0] || (a[0] == b[0] && NameLe(a[1..], b[1..]))))
  }

  /** The order on keys; numbers and names are never compared by the sort (that raises). */
  predicate KeyLe(a: Key, b: Key) {
    match (a, b)
    case (Num(x), Num(y)) => x <= y
    case (Name(x), Name(y)) => NameLe(x, y)
    case (Num(_), Name(_)) => true
    case (Name(_), Num(_)) => false
  }

  lemma {:induction false} NameLeTotal(a: string, b: string)
    ensures NameLe(a, b) || NameLe(b, a)
    decreases |a|
  {
    if |a| > 0 && |b| > 0 && a[0] == b[0] {
      NameLeTotal(a[1..], b[1..]);
    }
  }

  lemma {:induction false} NameLeTrans(a: string, b: string, c: string)
    requires NameLe(a, b) && NameLe(b, c)
    ensures NameLe(a, c)
    decreases |a|
  {
    if |a| > 0 && a[0] == b[0] && b[0] == c[0] {
      NameLeTrans(a[1..], b[1..], c[1..]);
    }
  }

  lemma {:induction false} NameLeRefl(a: string)
    ensures NameLe(a, a)
    decreases |a|
  {
    if |a| > 0 {
      NameLeRefl(a[1..]);
    }
  }

  /** `KeyLe` is a total order. */
  lemma KeyLeOrder(a: Key, b: Key, c: Key)
    ensures KeyLe(a, a)
    ensures KeyLe(a, b) || KeyLe(b, a)
    ensures KeyLe(a, b) && KeyLe(b, c) ==> KeyLe(a, c)
  {
    if a.Name? {
      NameLeRefl(a.s);
      if b.Name? {
        NameLeTotal(a.s, b.s);
        if c.Name? && KeyLe(a, b) && KeyLe(b, c) {
          NameLeTrans(a.s, b.s, c.s);
        }
      }
    }
  }

  /**
   * `sort(key=...)` computes the key of every name once and then orders
   * the names by those keys; an entry is a name together with its key.
   */
  datatype Entry = Entry(key: Key, name: string)

  /** `x` may stay before `y`: the key of `x` is not greater. */
  predicate Before(x: Entry, y: Entry) {
    KeyLe(x.key, y.key)
  }

  predicate Sorted(s: seq<Entry>) {
    forall i, j :: 0 <= i < j < |s| ==> Before(s[i], s[j])
  }

  /** Stable insertion of `x` into `s`: after every entry whose key is not greater. */
  function Insert(s: seq<Entry>, x: Entry): (r: seq<Entry>)
    ensures |r| == |s| + 1
  {
    if |s| == 0 || Before(Last(s), x) then s + [x]
    else Insert(AllButLast(s), x) + [Last(s)]
  }

  /** The stable sort of `s` by key. */
  function SortEntries(s: seq<Entry>): (r: seq<Entry>)
    ensures |r| == |s|
  {
    if |s| == 0 then [] else Insert(SortEntries(AllButLast(s)), Last(s))
  }

  /** Every name of `names` paired with its `SequenceKey`. */
  function Decorate(names: seq<string>): (r: seq<Entry>)
    ensures |r| == |names|
  {
    if |names| == 0 then []
    else Decorate(AllButLast(names)) + [Entry(SequenceKey(Last(names)), Last(names))]
  }

  /** The names of the entries, in order. */
  function Names(s: seq<Entry>): (r: seq<string>)
    ensures |r| == |s|
  {
    if |s| == 0 then [] else Names(AllButLast(s)) + [Last(s).name]
  }

  /** `sorted(names, key=extract_sequence_number)` when no number meets a name. */
  function SortByKey(names: seq<string>): (r: seq<string>)
    ensures |r| == |names|
  {
    Names(SortEntries(Decorate(names)))
  }

  /** Every entry carries the key of its own name. */
  predicate Keyed(s: seq<Entry>) {
    forall e :: e in s ==> e.key == SequenceKey(e.name)
  }

  lemma {:induction false} DecorateKeyed(names: seq<string>)
    ensures Keyed(Decorate(names))
  {
    if |names| > 0 {
      DecorateKeyed(AllButLast(names));
    }
  }

  lemma {:induction false} DecorateNames(names: seq<string>)
    ensures Names(Decorate(names)) == names
  {
    if |names| > 0 {
      DecorateNames(AllButLast(names));
      var d := Decorate(names);
      assert AllButLast(d) == Decorate(AllButLast(names));
      LastSplit(names);
    }
  }

  lemma NamesSnoc(s: seq<Entry>, x: Entry)
    ensures Names(s + [x]) == Names(s) + [x.name]
  {
    SnocParts(s, x);
  }

  lemma {:induction false} InsertPermutes(s: seq<Entry>, x: Entry)
    ensures multiset(Insert(s, x)) == multiset(s) + multiset{x}
  {
    if |s| > 0 && !Before(Last(s), x) {
      InsertPermutes(AllButLast(s), x);
      LastSplit(s);
    }
  }

  lemma {:induction false} InsertKeepsNames(s: seq<Entry>, x: Entry)
    ensures multiset(Names(Insert(s, x))) == multiset(Names(s)) + multiset{x.name}
  {
    if |s| == 0 || Before(Last(s), x) {
      NamesSnoc(s, x);
    } else {
      var front := AllButLast(s);
      InsertKeepsNames(front, x);
      NamesSnoc(Insert(front, x), Last(s));
      NamesSnoc(front, Last(s));
      LastSplit(s);
    }
  }

  lemma BeforeOrder(x: Entry, y: Entry, z: Entry)
    ensures Before(x, x)
    ensures Before(x, y) || Before(y, x)
    ensures Before(x, y) && Before(y, z) ==> Before(x, z)
  {
    KeyLeOrder(x.key, y.key, z.key);
  }

  lemma AppendAfterLast(s: seq<Entry>, x: Entry)
    requires Sorted(s) && (|s| == 0 || Before(Last(s), x))
    ensures Sorted(s + [x])
  {
    forall i, j | 0 <= i < j < |s| + 1
      ensures Before((s + [x])[i], (s + [x])[j])
    {
      if j == |s| {
        BeforeOrder(s[i], Last(s), x);
      }
    }
  }

  lemma AppendAboveAll(r: seq<Entry>, x: Entry)
    requires Sorted(r) && forall y :: y in r ==> Before(y, x)
    ensures Sorted(r + [x])
  {
    forall i, j | 0 <= i < j < |r| + 1
      ensures Before((r + [x])[i], (r + [x])[j])
    {
      if j == |r| {
        assert r[i] in r;
      }
    }
  }

  lemma InsertMembers(s: seq<Entry>, x: Entry)
    ensures forall y :: y in Insert(s, x) ==> y in s || y == x
  {
    InsertPermutes(s, x);
    forall y | y in Insert(s, x)
      ensures y in s || y == x
    {
      assert y in multiset(Insert(s, x));
    }
  }

  lemma {:induction false} InsertSorted(s: seq<Entry>, x: Entry)
    requires Sorted(s)
    ensures Sorted(Insert(s, x))
  {
    if |s| == 0 || Before(Last(s), x) {
      AppendAfterLast(s, x);
    } else {
      var front := AllButLast(s);
      var last := Last(s);
      assert Sorted(front);
      InsertSorted(front, x);
      InsertMembers(front, x);
      BeforeOrder(last, x, last);
      forall y | y in Insert(front, x)
        ensures Before(y, last)
      {
        if y != x {
          var k :| 0 <= k < |front| && front[k] == y;
          assert s[k] == y;
        }
      }
      AppendAboveAll(Insert(front, x), last);
    }
  }

  /** The sorted entries are ordered by key. */
  lemma {:induction false} SortEntriesSorts(s: seq<Entry>)
    ensures Sorted(SortEntries(s))
  {
    if |s| > 0 {
      SortEntriesSorts(AllButLast(s));
      InsertSorted(SortEntries(AllButLast(s)), Last(s));
    }
  }

  /** The sorted entries are the same entries, as many times each. */
  lemma {:induction false} SortEntriesPermutes(s: seq<Entry>)
    ensures multiset(SortEntries(s)) == multiset(s)
  {
    if |s| > 0 {
      var front := AllButLast(s);
      SortEntriesPermutes(front);
      InsertPermutes(SortEntries(front), Last(s));
      LastSplit(s);
    }
  }

  /** The sorted entries carry the same names, as many times each. */
  lemma {:induction false} SortEntriesKeepsNames(s: seq<Entry>)
    ensures multiset(Names(SortEntries(s))) == multiset(Names(s))
  {
    if |s| > 0 {
      var front := AllButLast(s);
      SortEntriesKeepsNames(front);
      InsertKeepsNames(SortEntries(front), Last(s));
      NamesSnoc(front, Last(s));
      LastSplit(s);
    }
  }

  /** The entries of `s` whose key is `k`, in order. */
  function WithKey(s: seq<Entry>, k: Key): seq<Entry> {
    if |s| == 0 then []
    else WithKey(AllButLast(s), k) + (if Last(s).key == k then [Last(s)] else [])
  }

  lemma WithKeySnoc(s: seq<Entry>, x: Entry, k: Key)
    ensures WithKey(s + [x], k) == WithKey(s, k) + (if x.key == k then [x] else [])
  {
    SnocParts(s, x);
  }

  lemma {:induction false} InsertIsStable(s: seq<Entry>, x: Entry, k: Key)
    ensures WithKey(Insert(s, x), k) == WithKey(s, k) + (if x.key == k then [x] else [])
  {
    if |s| == 0 || Before(Last(s), x) {
      WithKeySnoc(s, x, k);
    } else {
      var front := AllButLast(s);
      var last := Last(s);
      InsertIsStable(front, x, k);
      WithKeySnoc(Insert(front, x), last, k);
      BeforeOrder(last, last, x);
      assert last.key != x.key;
    }
  }

  /** The sort is stable: the entries that share a key keep their relative order. */
  lemma {:induction false} SortEntriesIsStable(s: seq<Entry>, k: Key)
    ensures WithKey(SortEntries(s), k) == WithKey(s, k)
  {
    if |s| > 0 {
      SortEntriesIsStable(AllButLast(s), k);
      InsertIsStable(SortEntries(AllButLast(s)), Last(s), k);
    }
  }

  lemma KeyedMembers(s: seq<Entry>, t: seq<Entry>)
    requires Keyed(s) && multiset(t) == multiset(s)
    ensures Keyed(t)
  {
    forall e | e in t
      ensures e.key == SequenceKey(e.name)
    {
      assert e in multiset(t);
    }
  }

  lemma {:induction false} NamesAt(s: seq<Entry>, i: nat)
    requires i < |s|
    ensures Names(s)[i] == s[i].name
  {
    if i < |s| - 1 {
      NamesAt(AllButLast(s), i);
    }
  }

  /**
   * `ts_files.sort(key=extract_sequence_number)`: the result holds the same
   * names as many times each, and their keys never decrease.
   */
  lemma SortByKeyOrders(names: seq<string>)
    ensures multiset(SortByKey(names)) == multiset(names)
    ensures forall i, j :: 0 <= i < j < |names| ==>
              KeyLe(SequenceKey(SortByKey(names)[i]), SequenceKey(SortByKey(names)[j]))
  {
    var d := Decorate(names);
    var r := SortEntries(d);
    DecorateKeyed(names);
    DecorateNames(names);
    SortEntriesPermutes(d);
    SortEntriesKeepsNames(d);
    SortEntriesSorts(d);
    KeyedMembers(d, r);
    forall i, j | 0 <= i < j < |names|
      ensures KeyLe(SequenceKey(SortByKey(names)[i]), SequenceKey(SortByKey(names)[j]))
    {
      NamesAt(r, i);
      NamesAt(r, j);
      assert r[i] in r && r[j] in r;
    }
  }

  /** The names among `names` whose key is `k`, in order. */
  function NamesWithKey(names: seq<string>, k: Key): seq<string> {
    if |names| == 0 then []
    else NamesWithKey(AllButLast(names), k) + (if SequenceKey(Last(names)) == k then [Last(names)] else [])
  }

  lemma KeyedFront(s: seq<Entry>)
    requires |s| > 0 && Keyed(s)
    ensures Keyed(AllButLast(s)) && Last(s).key == SequenceKey(Last(s).name)
  {
    assert Last(s) in s;
    forall e | e in AllButLast(s)
      ensures e.key == SequenceKey(e.name)
    {
      var i :| 0 <= i < |s| - 1 && AllButLast(s)[i] == e;
      assert s[i] == e;
    }
  }

  lemma {:induction false} WithKeyNames(s: seq<Entry>, k: Key)
    requires Keyed(s)
    ensures Names(WithKey(s, k)) == NamesWithKey(Names(s), k)
  {
    if |s| > 0 {
      var front, last := AllButLast(s), Last(s);
      KeyedFront(s);
      WithKeyNames(front, k);
      LastSplit(s);
      NamesSnoc(front, last);
      SnocParts(Names(front), last.name);
      if last.key == k {
        NamesSnoc(WithKey(front, k), last);
      } else {
        assert WithKey(front, k) + [] == WithKey(front, k);
        assert Names(front) + [] == Names(front);
      }
    }
  }

  /** The names that share a key keep their relative order through the sort. */
  lemma SortByKeyIsStable(names: seq<string>, k: Key)
    ensures NamesWithKey(SortByKey(names), k) == NamesWithKey(names, k)
  {
    var d := Decorate(names);
    var r := SortEntries(d);
    DecorateKeyed(names);
    DecorateNames(names);
    SortEntriesPermutes(d);
    KeyedMembers(d, r);
    SortEntriesIsStable(d, k);
    WithKeyNames(d, k);
    WithKeyNames(r, k);
  }

  lemma InsertShift(t: seq<Entry>, x: Entry, j: nat)
    requires 0 < j <= |t| && !Before(t[j - 1], x)
    ensures Insert(t[..j], x) + t[j..] == Insert(t[..j - 1], x) + t[j - 1..]
  {
    assert AllButLast(t[..j]) == t[..j - 1];
    assert t[j - 1..] == [t[j - 1]] + t[j..];
  }

  lemma InsertStops(t: seq<Entry>, x: Entry, j: nat)
    requires j <= |t| && (j == 0 || Before(t[j - 1], x))
    ensures Insert(t[..j], x) == t[..j] + [x]
  {
    if j > 0 {
      assert Last(t[..j]) == t[j - 1];
    }
  }

  /**
   * The array contents while `a[i]` moves left: the entries before the gap
   * at `j` are untouched, those after it up to `i` have moved one place right.
   */
  ghost predicate Shifted(s: seq<Entry>, t: seq<Entry>, rest: seq<Entry>, i: nat, j: nat) {
    && j <= i == |t| < |s|
    && s[..j] == t[..j]
    && s[j + 1..i + 1] == t[j..]
    && s[i + 1..] == rest
  }

  lemma ShiftOne(s: seq<Entry>, t: seq<Entry>, rest: seq<Entry>, i: nat, j: nat)
    requires 0 < j && Shifted(s, t, rest, i, j)
    ensures Shifted(s[j := s[j - 1]], t, rest, i, j - 1)
  {
    var s' := s[j := s[j - 1]];
    assert s'[..j - 1] == s[..j][..j - 1];
    assert s'[j..i + 1] == [s[..j][j - 1]] + s[j + 1..i + 1];
    assert t[j - 1..] == [t[..j][j - 1]] + t[j..];
  }

  lemma PlaceAt(s: seq<Entry>, t: seq<Entry>, rest: seq<Entry>, i: nat, j: nat, x: Entry)
    requires Shifted(s, t, rest, i, j)
    ensures s[j := x][..i + 1] == t[..j] + [x] + t[j..]
    ensures s[j := x][i + 1..] == rest
  {
    var s' := s[j := x];
    assert s'[..i + 1] == s[..j] + [x] + s[j + 1..i + 1];
  }

  /** Moves `a[i]` left past the entries of the sorted `a[..i]` with a greater key. */
  method InsertInPlace(a: array<Entry>, i: nat)
    requires i < a.Length
    modifies a
    ensures a[..i + 1] == Insert(old(a[..i]), old(a[i]))
    ensures a[i + 1..] == old(a[i + 1..])
  {
    var x := a[i];
    ghost var t := a[..i];
    ghost var rest := a[i + 1..];
    var j := i;
    assert Shifted(a[..], t, rest, i, j);
    while j > 0 && !KeyLe(a[j - 1].key, x.key)
      invariant Shifted(a[..], t, rest, i, j)
      invariant Insert(t, x) == Insert(t[..j], x) + t[j..]
    {
      InsertShift(t, x, j);
      ShiftOne(a[..], t, rest, i, j);
      a[j] := a[j - 1];
      j := j - 1;
    }
    InsertStops(t, x, j);
    PlaceAt(a[..], t, rest, i, j, x);
    a[j] := x;
    assert a[..i + 1] == a[..][..i + 1];
  }

  /**
   * The sort itself, on entries whose keys are all numbers or all names:
   * an in-place insertion sort that moves each entry left past the entries
   * with a greater key.
   */
  method SortInPlace(a: array<Entry>)
    modifies a
    ensures a[..] == SortEntries(old(a[..]))
  {
    ghost var input := a[..];
    var i := 0;
    while i < a.Length
      invariant i <= a.Length
      invariant a[..i] == SortEntries(input[..i])
      invariant a[i..] == input[i..]
    {
      InsertInPlace(a, i);
      assert input[..i + 1] == input[..i] + [input[i]];
      assert AllButLast(input[..i + 1]) == input[..i];
      i := i + 1;
    }
    assert input[..i] == input;
  }

  /** `[f for f in os.listdir(save_path) if f.endswith('.ts')]`, in listing order. */
  function TsFiles(listing: seq<string>): (r: seq<string>)
    ensures forall n :: n in r <==> n in listing && EndsWith(n, ".ts")
  {
    if |listing| == 0 then []
    else
      var front := AllButLast(listing);
      LastSplit(listing);
      TsFiles(front) + (if EndsWith(Last(listing), ".ts") then [Last(listing)] else [])
  }

  /** Some key is a number and some key is a name: the sort compares an `int` with a `str`. */
  predicate Clash(s: seq<Entry>) {
    (exists i :: 0 <= i < |s| && s[i].key.Num?) && (exists j :: 0 <= j < |s| && s[j].key.Name?)
  }

  lemma {:induction false} DecorateAt(names: seq<string>, i: nat)
    requires i < |names|
    ensures Decorate(names)[i] == Entry(SequenceKey(names[i]), names[i])
  {
    if i < |names| - 1 {
      DecorateAt(AllButLast(names), i);
    }
  }

  /**
   * The keys clash exactly when one name has a digit and another has none:
   * a name without a digit keeps itself as its key, every other name gets a number.
   */
  lemma ClashMeansDigits(names: seq<string>)
    ensures Clash(Decorate(names)) <==>
              (exists i :: 0 <= i < |names| && HasDigit(names[i])) &&
              (exists j :: 0 <= j < |names| && !HasDigit(names[j]))
  {
    var d := Decorate(names);
    forall i | 0 <= i < |names|
      ensures d[i].key.Num? <==> HasDigit(names[i])
    {
      KeyNumAt(names, i);
    }
  }

  /** The `i`-th decorated entry has a number key exactly when the `i`-th name has a digit. */
  lemma KeyNumAt(names: seq<string>, i: nat)
    requires i < |names|
    ensures Decorate(names)[i].key.Num? <==> HasDigit(names[i])
  {
    DecorateAt(names, i);
    CascadeFindsEveryDigit(names[i]);
  }

  /** One line of the concat list, without its newline. */
  function Quote(name: string): string {
    "file '" + name + "'"
  }

  /** What the loop writes to `filelist.txt`: one quoted line per name. */
  function FileListText(names: seq<string>): (r: string)
    ensures |r| >= 8 * |names|
    ensures names != [] ==> EndsWith(r, "\n")
  {
    if |names| == 0 then ""
    else FileListText(AllButLast(names)) + Quote(Last(names)) + "\n"
  }

  /** Writes the concat list line by line, as the `with open(...)` loop does. */
  method WriteFileList(names: seq<string>) returns (text: string)
    ensures text == FileListText(names)
  {
    text := "";
    for k := 0 to |names|
      invariant text == FileListText(names[..k])
    {
      assert AllButLast(names[..k + 1]) == names[..k];
      text := text + Quote(names[k]) + "\n";
    }
    assert names[..|names|] == names;
  }

  /** The quoted lines of the names. */
  function QuotedLines(names: seq<string>): (r: seq<string>)
    ensures |r| == |names|
    ensures forall k :: 0 <= k < |r| ==> r[k] == Quote(names[k])
  {
    if |names| == 0 then [] else QuotedLines(AllButLast(names)) + [Quote(Last(names))]
  }

  /** The name inside one line of the list. */
  function Unquote(line: string): string {
    if |line| >= 7 && StartsWith(line, "file '") && EndsWith(line, "'") then line[6..|line| - 1]
    else line
  }

  function UnquoteAll(lines: seq<string>): (r: seq<string>)
    ensures |r| == |lines|
  {
    if |lines| == 0 then [] else UnquoteAll(AllButLast(lines)) + [Unquote(Last(lines))]
  }

  /** How a reader of the concat list recovers the names: every line before the final newline, unquoted. */
  function ReadFileList(text: string): seq<string> {
    UnquoteAll(AllButLast(Split(text, '\n')))
  }

  lemma {:induction false} FileListJoined(names: seq<string>)
    requires |names| > 0
    ensures FileListText(names) == Join(QuotedLines(names), '\n') + "\n"
  {
    var front := AllButLast(names);
    if |front| > 0 {
      FileListJoined(front);
      JoinSnoc(QuotedLines(names), '\n');
      assert AllButLast(QuotedLines(names)) == QuotedLines(front);
    }
  }

  lemma {:induction false} UnquoteQuoted(names: seq<string>)
    ensures UnquoteAll(QuotedLines(names)) == names
  {
    if |names| > 0 {
      var front := AllButLast(names);
      UnquoteQuoted(front);
      UnquoteQuote(Last(names));
      assert AllButLast(QuotedLines(names)) == QuotedLines(front);
      LastSplit(names);
    }
  }

  /** Unquoting one quoted line gives the name back. */
  lemma UnquoteQuote(name: string)
    ensures Unquote(Quote(name)) == name
  {
    var q := Quote(name);
    assert q[..6] == "file '";
    assert q[|q| - 1..] == "'";
    assert q[6..|q| - 1] == name;
  }

  lemma NoNewlineInLines(names: seq<string>)
    requires forall k :: 0 <= k < |names| ==> '\n' !in names[k]
    ensures forall k :: 0 <= k < |names| + 1 ==> '\n' !in (QuotedLines(names) + [""])[k]
  {
    var lines := QuotedLines(names) + [""];
    forall k | 0 <= k < |names| + 1
      ensures '\n' !in lines[k]
    {
      if k < |names| {
        assert lines[k] == "file '" + names[k] + "'";
      }
    }
  }

  lemma FileListIsJoin(names: seq<string>)
    ensures FileListText(names) == Join(QuotedLines(names) + [""], '\n')
  {
    var lines := QuotedLines(names);
    if |names| > 0 {
      FileListJoined(names);
      JoinSnoc(lines + [""], '\n');
      SnocParts(lines, "");
    }
  }

  lemma FileListLines(names: seq<string>)
    requires forall k :: 0 <= k < |names| ==> '\n' !in names[k]
    ensures Split(FileListText(names), '\n') == QuotedLines(names) + [""]
  {
    FileListIsJoin(names);
    NoNewlineInLines(names);
    SplitJoin(QuotedLines(names) + [""], '\n');
  }

  /** Reading the list back gives the names in the order written, for names without a newline. */
  lemma FileListRoundTrip(names: seq<string>)
    requires forall k :: 0 <= k < |names| ==> '\n' !in names[k]
    ensures ReadFileList(FileListText(names)) == names
  {
    var lines := QuotedLines(names);
    FileListLines(names);
    SnocParts(lines, "");
    UnquoteQuoted(names);
  }

  lemma DecorateSnoc(ts: seq<string>, k: nat, key: Key)
    requires k < |ts| && key == SequenceKey(ts[k])
    ensures Decorate(ts[..k + 1]) == Decorate(ts[..k]) + [Entry(key, ts[k])]
  {
    assert AllButLast(ts[..k + 1]) == ts[..k];
  }

  /** Computes the key of every name once, as `sort(key=...)` does before it compares. */
  method DecorateAll(ts: seq<string>) returns (a: array<Entry>)
    ensures fresh(a) && a[..] == Decorate(ts)
  {
    a := new Entry[|ts|](_ => Entry(Num(0), ""));
    for k := 0 to |ts|
      invariant a[..k] == Decorate(ts[..k])
    {
      var key := SequenceKey(ts[k]);
      DecorateSnoc(ts, k, key);
      a[k] := Entry(key, ts[k]);
    }
    assert ts[..|ts|] == ts;
    assert a[..] == a[..|ts|];
  }

  /** Whether the sort would compare a number key with a name key. */
  method HasClash(a: array<Entry>) returns (b: bool)
    ensures b == Clash(a[..])
  {
    var numbers, names := false, false;
    for k := 0 to a.Length
      invariant numbers <==> exists i :: 0 <= i < k && a[i].key.Num?
      invariant names <==> exists i :: 0 <= i < k && a[i].key.Name?
    {
      numbers := numbers || a[k].key.Num?;
      names := names || a[k].key.Name?;
    }
    b := numbers && names;
  }

  /** The names of the sorted entries, in order. */
  method NamesOf(a: array<Entry>) returns (order: seq<string>)
    ensures order == Names(a[..])
  {
    order := [];
    for k := 0 to a.Length
      invariant order == Names(a[..k])
    {
      assert AllButLast(a[..k + 1]) == a[..k];
      order := order + [a[k].name];
    }
    assert a[..a.Length] == a[..];
  }

  /** What `merge_to_mp4` prepares for ffmpeg from a directory listing. */
  datatype Merge =
    | NoSegmentFiles
    | KeysClash
    | Concat(order: seq<string>, list: string)

  /**
   * Keeps the `.ts` names of the listing, sorts them by sequence key and
   * writes the concat list; no `.ts` name stops with a warning, and a number
   * key meeting a name key makes the sort raise.
   */
  method PlanMerge(listing: seq<string>) returns (m: Merge)
    ensures m.NoSegmentFiles? <==> |TsFiles(listing)| == 0
    ensures m.KeysClash? <==> Clash(Decorate(TsFiles(listing)))
    ensures m.Concat? ==> m.order == SortByKey(TsFiles(listing)) && m.list == FileListText(m.order)
  {
    var ts := TsFiles(listing);
    if |ts| == 0 {
      return NoSegmentFiles;
    }
    var a := DecorateAll(ts);
    var clash := HasClash(a);
    if clash {
      return KeysClash;
    }
    SortInPlace(a);
    var order := NamesOf(a);
    var list := WriteFileList(order);
    return Concat(order, list);
  }
}
