/**
 * Hand-written scanners for the regular expressions of the scrapers that
 * have a simple shape. Each scanner follows JavaScript's matching rules:
 * the leftmost starting position wins, quantifiers are greedy, and a greedy
 * quantifier gives characters back when the rest of the pattern fails.
 */
module Scanners {
  import opened Wrappers
  import opened Strings

  // ---------- runs of one character class ----------

  /** The end of the longest run of `inClass` characters that starts at `i`. */
  function RunEnd(s: string, i: nat, inClass: char -> bool): (e: nat)
    requires i <= |s|
    ensures i <= e <= |s|
    ensures forall k :: i <= k < e ==> inClass(s[k])
    ensures e < |s| ==> !inClass(s[e])
    decreases |s| - i
  {
    if i < |s| && inClass(s[i]) then RunEnd(s, i + 1, inClass) else i
  }

  /** A run that ends where the class stops holding is the run RunEnd finds. */
  lemma {:induction false} RunEndAt(s: string, i: nat, e: nat, inClass: char -> bool)
    requires i <= e <= |s|
    requires forall k :: i <= k < e ==> inClass(s[k])
    requires e == |s| || !inClass(s[e])
    ensures RunEnd(s, i, inClass) == e
    decreases e - i
  {
    if i < e {
      RunEndAt(s, i + 1, e, inClass);
    }
  }

  function SpaceEnd(s: string, i: nat): (e: nat)
    requires i <= |s|
    ensures i <= e <= |s|
    ensures forall k :: i <= k < e ==> IsSpace(s[k])
    ensures e < |s| ==> !IsSpace(s[e])
  {
    RunEnd(s, i, IsSpace)
  }

  function DigitEnd(s: string, i: nat): (e: nat)
    requires i <= |s|
    ensures i <= e <= |s|
    ensures forall k :: i <= k < e ==> IsDigit(s[k])
    ensures e < |s| ==> !IsDigit(s[e])
  {
    RunEnd(s, i, IsDigit)
  }

  /** `\d{1,2}` at `i`, greedy: the number of digits it takes (0 when it fails). */
  function OneOrTwoDigits(s: string, i: nat): (n: nat)
    requires i <= |s|
    ensures n <= 2 && i + n <= |s|
    ensures forall k :: i <= k < i + n ==> IsDigit(s[k])
    ensures n == 0 <==> (i == |s| || !IsDigit(s[i]))
    ensures n == 1 ==> i + 1 == |s| || !IsDigit(s[i + 1])
  {
    if i < |s| && IsDigit(s[i]) then
      (if i + 1 < |s| && IsDigit(s[i + 1]) then 2 else 1)
    else 0
  }

  // ---------- word boundaries ----------

  /** `\b` before position `i`, when `s[i]` is a word character. */
  predicate BoundaryBefore(s: string, i: nat)
    requires i <= |s|
  {
    i == 0 || !IsWordChar(s[i - 1])
  }

  /** `\b` at position `i`, when `s[i - 1]` is a word character. */
  predicate BoundaryAt(s: string, i: nat)
    requires i <= |s|
  {
    i == |s| || !IsWordChar(s[i])
  }

  // ---------- decimal numbers ----------

  predicate AllDigits(s: string) {
    forall k :: 0 <= k < |s| ==> IsDigit(s[k])
  }

  /** JavaScript's `Number(s)` on a string of decimal digits. */
  function NumberValue(s: string): nat
    requires AllDigits(s)
  {
    if s == [] then 0 else NumberValue(s[..|s| - 1]) * 10 + DigitValue(s[|s| - 1])
  }

  function DigitChar(d: nat): (c: char)
    requires d < 10
    ensures IsDigit(c) && DigitValue(c) == d
  {
    ('0' as int + d) as char
  }

  /** The decimal rendering of `n`, without leading zeros. */
  function NatToString(n: nat): (s: string)
    ensures 1 <= |s| && AllDigits(s)
    ensures n < 10 <==> |s| == 1
    ensures 10 <= n < 100 <==> |s| == 2
  {
    if n < 10 then [DigitChar(n)] else NatToString(n / 10) + [DigitChar(n % 10)]
  }

  lemma {:induction false} NumberValueOfNatToString(n: nat)
    ensures NumberValue(NatToString(n)) == n
  {
    if n >= 10 {
      var s := NatToString(n);
      assert s[..|s| - 1] == NatToString(n / 10);
      NumberValueOfNatToString(n / 10);
    }
  }

  // ---------- the leftmost match ----------

  /**
   * The result at the first position from `from` to `upto` where `at`
   * matches: how a regular expression without the global flag picks its
   * match among the starting positions.
   */
  function Leftmost<T>(at: nat -> Option<T>, from: nat, upto: nat): (r: Option<T>)
    ensures r.Some? ==> exists i :: from <= i <= upto && at(i) == r && forall j :: from <= j < i ==> at(j).None?
    ensures r.None? ==> forall i :: from <= i <= upto ==> at(i).None?
    decreases upto + 1 - from
  {
    if from > upto then None
    else match at(from)
      case Some(v) => Some(v)
      case None =>
        var r := Leftmost(at, from + 1, upto);
        assert r.Some? ==> exists i :: from <= i <= upto && at(i) == r && forall j :: from <= j < i ==> at(j).None? by {
          if r.Some? {
            var i :| from + 1 <= i <= upto && at(i) == r && forall j :: from + 1 <= j < i ==> at(j).None?;
            assert forall j :: from <= j < i ==> at(j).None?;
          }
        }
        r
  }

  /** A match found is at some position `i` before which no position matches. */
  lemma {:induction false} LeftmostFound<T>(at: nat -> Option<T>, from: nat, upto: nat) returns (i: nat)
    requires Leftmost(at, from, upto).Some?
    ensures from <= i <= upto && at(i) == Leftmost(at, from, upto)
    ensures forall j :: from <= j < i ==> at(j).None?
    decreases upto + 1 - from
  {
    if at(from).Some? {
      i := from;
    } else {
      i := LeftmostFound(at, from + 1, upto);
    }
  }

  /** No match is found exactly when no position matches. */
  lemma {:induction false} LeftmostNone<T>(at: nat -> Option<T>, from: nat, upto: nat)
    ensures Leftmost(at, from, upto).None? <==> forall i :: from <= i <= upto ==> at(i).None?
    decreases upto + 1 - from
  {
    if from <= upto {
      LeftmostNone(at, from + 1, upto);
      if Leftmost(at, from, upto).None? {
        forall i | from <= i <= upto ensures at(i).None? {
          if i > from {
            assert from + 1 <= i <= upto;
          }
        }
      }
    }
  }

  // ---------- a label followed by a run of characters ----------

  /** The end of the first label of `labels` that occurs at `i` in the lower-cased text. */
  function LabelAt(lower: string, i: nat, labels: seq<string>): (j: Option<nat>)
    ensures j.Some? ==> exists k :: 0 <= k < |labels| && OccursAt(lower, labels[k], i) && j.value == i + |labels[k]|
    ensures j.None? ==> forall k :: 0 <= k < |labels| ==> !OccursAt(lower, labels[k], i)
    ensures j.Some? ==> j.value <= |lower|
  {
    if labels == [] then None
    else if OccursAt(lower, labels[0], i) then Some(i + |labels[0]|)
    else
      var r := LabelAt(lower, i, labels[1..]);
      assert r.Some? ==> exists k :: 0 <= k < |labels[1..]| && OccursAt(lower, labels[1..][k], i) && r.value == i + |labels[1..][k]|;
      r
  }

  /** The last position `p` in `[lo, hi]` whose character is in the class, scanning down from `hi`. */
  function LastInClass(s: string, lo: nat, hi: nat, inClass: char -> bool): (p: Option<nat>)
    requires lo <= hi <= |s|
    ensures p.Some? ==> lo <= p.value <= hi && p.value < |s| && inClass(s[p.value])
    ensures p.Some? ==> forall k :: p.value < k <= hi && k < |s| ==> !inClass(s[k])
    ensures p.None? ==> forall k :: lo <= k <= hi && k < |s| ==> !inClass(s[k])
    decreases hi - lo
  {
    if hi < |s| && inClass(s[hi]) then Some(hi)
    else if hi == lo then None
    else LastInClass(s, lo, hi - 1, inClass)
  }

  /**
   * The capture of `LABEL SEP* (C+)` for a label ending at `j`: SEP* first takes
   * all it can, then gives characters back until C+ can start; C+ then takes all
   * it can. None when C+ can start nowhere.
   */
  function SepThenRun(s: string, j: nat, isSep: char -> bool, inClass: char -> bool): (r: Option<string>)
    requires j <= |s|
    ensures r.Some? ==> |r.value| >= 1 && forall k :: 0 <= k < |r.value| ==> inClass(r.value[k])
  {
    var k := RunEnd(s, j, isSep);
    match LastInClass(s, j, k, inClass)
    case None => None
    case Some(p) => Some(s[p..RunEnd(s, p, inClass)])
  }

  /** The capture of `/LABEL SEP*(C+)/i` when a match starts at `i`. */
  function LabelSepRunAt(s: string, labels: seq<string>, isSep: char -> bool, inClass: char -> bool, i: nat): Option<string> {
    if i > |s| then None
    else match LabelAt(ToLower(s), i, labels)
      case Some(j) => SepThenRun(s, j, isSep, inClass)
      case None => None
  }

  function LabelSepRunScan(s: string, labels: seq<string>, isSep: char -> bool, inClass: char -> bool): nat -> Option<string> {
    (i: nat) => LabelSepRunAt(s, labels, isSep, inClass, i)
  }

  /**
   * The capture of the leftmost match of `/LABEL SEP*(C+)/i`, searching from
   * `from`; `labels` are the lower-case spellings LABEL can take, in the order
   * the regular expression tries them.
   */
  function LabelSepRun(s: string, labels: seq<string>, isSep: char -> bool, inClass: char -> bool, from: nat): (r: Option<string>)
    ensures r.Some? ==> |r.value| >= 1 && forall k :: 0 <= k < |r.value| ==> inClass(r.value[k])
    ensures r.Some? ==>
      exists i :: from <= i <= |s| && LabelSepRunAt(s, labels, isSep, inClass, i) == r &&
        forall j :: from <= j < i ==> LabelSepRunAt(s, labels, isSep, inClass, j).None?
    ensures r.None? ==> forall i :: from <= i <= |s| ==> LabelSepRunAt(s, labels, isSep, inClass, i).None?
  {
    var scan := LabelSepRunScan(s, labels, isSep, inClass);
    assert forall i :: scan(i) == LabelSepRunAt(s, labels, isSep, inClass, i);
    Leftmost(scan, from, |s|)
  }

  /** A label at `from` whose run can start gives the capture at once. */
  lemma LabelSepRunHere(s: string, labels: seq<string>, isSep: char -> bool, inClass: char -> bool, from: nat, j: nat, c: string)
    requires from <= |s|
    requires LabelAt(ToLower(s), from, labels) == Some(j) && j <= |s|
    requires SepThenRun(s, j, isSep, inClass) == Some(c)
    ensures LabelSepRun(s, labels, isSep, inClass, from) == Some(c)
  {
  }

  /** The end of the line that contains position `i`: `.*` taken from `i`. */
  function LineEnd(s: string, i: nat): (e: nat)
    requires i <= |s|
    ensures i <= e <= |s|
    ensures forall k :: i <= k < e ==> !IsLineTerminator(s[k])
    ensures e < |s| ==> IsLineTerminator(s[e])
  {
    RunEnd(s, i, c => !IsLineTerminator(c))
  }
}
