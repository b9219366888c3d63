/** Values shared by every part of the habit tracker's model. */
module Common {

  datatype Option<+T> = None | Some(value: T)

  /** The status a user records for a day; the store keeps it as the text "done", "partial" or "fail". */
  datatype Status = Done | Partial | Fail

  /** A calendar date as a day number: today - 1 is yesterday. */
  type Day = int

  /** A wall-clock minute of the day, as produced by strftime("%H:%M"). */
  type MinuteOfDay = m: int | 0 <= m < 1440

  /** A wall-clock second of the day, as produced by SQLite's time('now'). */
  type SecondOfDay = s: int | 0 <= s < 86400

  /** `status in ("done", "partial")`: the statuses that extend a streak. */
  predicate Extends(s: Status) {
    s == Done || s == Partial
  }

  /** The rows of `s` that satisfy `p`, in their original order (a SQL WHERE, a list comprehension's `if`). */
  function Filter<T>(s: seq<T>, p: T -> bool): (r: seq<T>)
    ensures |r| <= |s|
    ensures forall i :: 0 <= i < |r| ==> r[i] in s && p(r[i])
    ensures forall i :: 0 <= i < |s| && p(s[i]) ==> s[i] in r
  {
    if s == [] then [] else if p(s[0]) then [s[0]] + Filter(s[1..], p) else Filter(s[1..], p)
  }

  lemma FilterSingle<T>(x: T, p: T -> bool)
    ensures Filter([x], p) == if p(x) then [x] else []
  {
    assert [x][1..] == [];
  }

  lemma {:induction false} FilterAppend<T>(a: seq<T>, b: seq<T>, p: T -> bool)
    ensures Filter(a + b, p) == Filter(a, p) + Filter(b, p)
  {
    if a != [] {
      assert (a + b)[0] == a[0] && (a + b)[1..] == a[1..] + b;
      FilterAppend(a[1..], b, p);
      var fa, fb := Filter(a[1..], p), Filter(b, p);
      assert [a[0]] + (fa + fb) == ([a[0]] + fa) + fb;
    } else {
      assert a + b == b;
    }
  }

  /** Nothing passes a filter that no entry satisfies. */
  lemma {:induction false} FilterOfNone<T>(s: seq<T>, p: T -> bool)
    requires forall i :: 0 <= i < |s| ==> !p(s[i])
    ensures Filter(s, p) == []
  {
    if s != [] {
      FilterOfNone(s[1..], p);
    }
  }

  /** Filtering keeps any relation that held between every earlier row and every later row. */
  lemma {:induction false} FilterKeepsPairwise<T>(s: seq<T>, p: T -> bool, rel: (T, T) -> bool)
    requires forall i, j :: 0 <= i < j < |s| ==> rel(s[i], s[j])
    ensures forall i, j :: 0 <= i < j < |Filter(s, p)| ==> rel(Filter(s, p)[i], Filter(s, p)[j])
  {
    if s != [] {
      var rest := s[1..];
      TailKeepsPairwise(s, rel);
      FilterKeepsPairwise(rest, p, rel);
      var fr := Filter(rest, p);
      if p(s[0]) {
        HeadRelatesToKept(s, p, rel);
        ConsKeepsPairwise(s[0], fr, rel);
        assert Filter(s, p) == [s[0]] + fr;
      } else {
        assert Filter(s, p) == fr;
      }
    }
  }

  lemma ConsKeepsPairwise<T>(x: T, s: seq<T>, rel: (T, T) -> bool)
    requires forall y :: y in s ==> rel(x, y)
    requires forall i, j :: 0 <= i < j < |s| ==> rel(s[i], s[j])
    ensures forall i, j :: 0 <= i < j < |[x] + s| ==> rel(([x] + s)[i], ([x] + s)[j])
  {
    var r := [x] + s;
    forall i, j | 0 <= i < j < |r| ensures rel(r[i], r[j]) {
      assert r[j] == s[j - 1];
      if i == 0 {
        assert r[0] == x && s[j - 1] in s;
      } else {
        assert r[i] == s[i - 1];
      }
    }
  }

  lemma TailKeepsPairwise<T>(s: seq<T>, rel: (T, T) -> bool)
    requires s != [] && forall i, j :: 0 <= i < j < |s| ==> rel(s[i], s[j])
    ensures forall i, j :: 0 <= i < j < |s[1..]| ==> rel(s[1..][i], s[1..][j])
  {
    forall i, j | 0 <= i < j < |s[1..]| ensures rel(s[1..][i], s[1..][j]) {
      assert s[1..][i] == s[i + 1] && s[1..][j] == s[j + 1];
    }
  }

  lemma HeadRelatesToKept<T>(s: seq<T>, p: T -> bool, rel: (T, T) -> bool)
    requires s != [] && forall i, j :: 0 <= i < j < |s| ==> rel(s[i], s[j])
    ensures forall x :: x in Filter(s[1..], p) ==> rel(s[0], x)
  {
    forall x | x in Filter(s[1..], p) ensures rel(s[0], x) {
      var fr := Filter(s[1..], p);
      var m :| 0 <= m < |fr| && fr[m] == x;
      var k :| 0 <= k < |s[1..]| && s[1..][k] == x;
      assert s[k + 1] == x;
    }
  }

  /** How many entries of `s` satisfy `p`. */
  function Count<T>(s: seq<T>, p: T -> bool): (n: nat)
    ensures n <= |s|
  {
    if s == [] then 0 else (if p(s[|s| - 1]) then 1 else 0) + Count(s[..|s| - 1], p)
  }

  lemma {:induction false} CountIsFilterLength<T>(s: seq<T>, p: T -> bool)
    ensures Count(s, p) == |Filter(s, p)|
  {
    if s != [] {
      var init, last := s[..|s| - 1], s[|s| - 1];
      assert s == init + [last];
      FilterAppend(init, [last], p);
      assert [last][1..] == [];
      CountIsFilterLength(init, p);
    }
  }

  function Max(a: int, b: int): int {
    if a >= b then a else b
  }

  function Min(a: int, b: int): int {
    if a <= b then a else b
  }
}
