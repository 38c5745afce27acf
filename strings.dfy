/**
 * The JavaScript string operations the extension relies on, over
 * `seq<char>`: `startsWith`, `includes`, `indexOf` and `replace` with a
 * string pattern.
 */
module Strings {
  import opened Wrappers

  predicate StartsWith(s: string, p: string)
  {
    |p| <= |s| && s[..|p|] == p
  }

  /** `p` occurs in `s` starting at position `i`. */
  predicate OccursAt(s: string, p: string, i: int)
  {
    0 <= i <= |s| && StartsWith(s[i..], p)
  }

  /** `s.includes(sub)`, scanning start positions left to right. */
  predicate Includes(s: string, sub: string)
    decreases |s|
  {
    StartsWith(s, sub) || (|s| > 0 && Includes(s[1..], sub))
  }

  /** Occurrences in `s[1..]` are the occurrences in `s` shifted by one. */
  lemma OccursAtTail(s: string, p: string, i: int)
    requires |s| > 0 && i >= 0
    ensures OccursAt(s[1..], p, i) <==> OccursAt(s, p, i + 1)
  {
    if 0 <= i <= |s| - 1 {
      assert s[1..][i..] == s[i + 1..];
    }
  }

  /** `Includes` agrees with the positional definition of a substring. */
  lemma {:induction false} IncludesIff(s: string, sub: string)
    ensures Includes(s, sub) <==> exists i :: OccursAt(s, sub, i)
    decreases |s|
  {
    assert s[0..] == s;
    if StartsWith(s, sub) {
      assert OccursAt(s, sub, 0);
    } else if |s| == 0 {
      forall i | OccursAt(s, sub, i) ensures false {
      }
    } else {
      IncludesIff(s[1..], sub);
      if exists j :: OccursAt(s[1..], sub, j) {
        var j :| OccursAt(s[1..], sub, j);
        OccursAtTail(s, sub, j);
      }
      if exists i :: OccursAt(s, sub, i) {
        var i :| OccursAt(s, sub, i);
        assert i != 0;
        OccursAtTail(s, sub, i - 1);
      }
    }
  }

  /** Every string contains itself and the empty string. */
  lemma IncludesSelfAndEmpty(s: string)
    ensures Includes(s, s) && Includes(s, "")
  {
    assert s[..|s|] == s;
  }

  /** A string contains every string it is built around. */
  lemma IncludesInMiddle(a: string, sub: string, b: string)
    ensures Includes(a + sub + b, sub)
  {
    var s := a + sub + b;
    assert s[|a|..][..|sub|] == sub;
    assert OccursAt(s, sub, |a|);
    IncludesIff(s, sub);
  }

  /** `s.indexOf(p)`: the first position at which `p` occurs. */
  function IndexOf(s: string, p: string): (r: Option<nat>)
    ensures r.Some? ==> OccursAt(s, p, r.value)
    ensures r.Some? ==> forall j :: 0 <= j < r.value ==> !OccursAt(s, p, j)
    ensures r.None? ==> forall j :: !OccursAt(s, p, j)
    decreases |s|
  {
    assert s[0..] == s;
    if StartsWith(s, p) then
      Some(0)
    else if |s| == 0 then
      None
    else
      var rest := IndexOf(s[1..], p);
      assert forall j :: j >= 0 ==> (OccursAt(s[1..], p, j) <==> OccursAt(s, p, j + 1)) by {
        forall j | j >= 0 ensures OccursAt(s[1..], p, j) <==> OccursAt(s, p, j + 1) {
          OccursAtTail(s, p, j);
        }
      }
      assert forall j :: OccursAt(s, p, j) ==> j >= 1 && OccursAt(s[1..], p, j - 1);
      match rest
      case None => None
      case Some(i) => Some(i + 1)
  }

  /** `indexOf` finds a position exactly when `includes` holds. */
  lemma IndexOfFindsIncludes(s: string, p: string)
    ensures IndexOf(s, p).Some? <==> Includes(s, p)
  {
    IncludesIff(s, p);
  }

  /** `s.replace(p, rep)` with a string pattern: only the first occurrence. */
  function ReplaceFirst(s: string, p: string, rep: string): string
  {
    match IndexOf(s, p)
    case None => s
    case Some(i) => s[..i] + rep + s[i + |p|..]
  }

  /** Only the first occurrence is replaced, wherever it is, and the rest is kept. */
  lemma ReplaceFirstAt(a: string, p: string, b: string, rep: string)
    requires forall j :: 0 <= j < |a| ==> !OccursAt(a + p + b, p, j)
    ensures ReplaceFirst(a + p + b, p, rep) == a + rep + b
  {
    var s := a + p + b;
    assert OccursAt(s, p, |a|) by {
      assert s[|a|..][..|p|] == p;
    }
    assert IndexOf(s, p) == Some(|a|);
    assert s[..|a|] == a;
    assert s[|a| + |p|..] == b;
  }

  /** A string without the pattern is left as it is. */
  lemma ReplaceFirstAbsent(s: string, p: string, rep: string)
    requires !Includes(s, p)
    ensures ReplaceFirst(s, p, rep) == s
  {
    IndexOfFindsIncludes(s, p);
  }
}
