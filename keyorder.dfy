/** The order in which the pivot table lists its rows: by TeamID, then by
    TeamName, strings compared code point by code point with a proper prefix
    first (Python's string order). */
module KeyOrder {
  import opened Sheets

  predicate StrLt(a: string, b: string)
    decreases |a|
  {
    |b| > 0 && (|a| == 0 || a[0] < b[0] || (a[0] == b[0] && StrLt(a[1..], b[1..])))
  }

  /** Strings that agree on their first `n` characters are ordered by the
      next one, a string that ends there coming first. */
  lemma {:induction false} StrLtAfterPrefix(a: string, b: string, n: nat)
    requires n <= |a| && n < |b| && a[..n] == b[..n] && (n == |a| || a[n] < b[n])
    ensures StrLt(a, b)
    decreases n
  {
    if n > 0 {
      assert a[0] == a[..n][0] == b[..n][0] == b[0];
      assert a[1..][..n - 1] == a[..n][1..];
      assert b[1..][..n - 1] == b[..n][1..];
      StrLtAfterPrefix(a[1..], b[1..], n - 1);
    }
  }

  predicate KeyLt(a: TeamKey, b: TeamKey)
  {
    a.teamId < b.teamId || (a.teamId == b.teamId && StrLt(a.teamName, b.teamName))
  }

  lemma {:induction false} StrLtIrreflexive(a: string)
    ensures !StrLt(a, a)
    decreases |a|
  {
    if |a| > 0 {
      StrLtIrreflexive(a[1..]);
    }
  }

  lemma {:induction false} StrLtTransitive(a: string, b: string, c: string)
    requires StrLt(a, b) && StrLt(b, c)
    ensures StrLt(a, c)
    decreases |a|
  {
    if |a| > 0 && a[0] == b[0] && b[0] == c[0] {
      StrLtTransitive(a[1..], b[1..], c[1..]);
    }
  }

  lemma {:induction false} StrLtTotal(a: string, b: string)
    ensures a == b || StrLt(a, b) || StrLt(b, a)
    decreases |a|
  {
    if |a| > 0 && |b| > 0 && a[0] == b[0] {
      StrLtTotal(a[1..], b[1..]);
      if a[1..] == b[1..] {
        assert a == [a[0]] + a[1..] && b == [b[0]] + b[1..];
      }
    }
  }

  lemma KeyLtIrreflexive(a: TeamKey)
    ensures !KeyLt(a, a)
  {
    StrLtIrreflexive(a.teamName);
  }

  lemma KeyLtTransitive(a: TeamKey, b: TeamKey, c: TeamKey)
    requires KeyLt(a, b) && KeyLt(b, c)
    ensures KeyLt(a, c)
  {
    if a.teamId == b.teamId == c.teamId {
      StrLtTransitive(a.teamName, b.teamName, c.teamName);
    }
  }

  lemma KeyLtTotal(a: TeamKey, b: TeamKey)
    ensures a == b || KeyLt(a, b) || KeyLt(b, a)
  {
    StrLtTotal(a.teamName, b.teamName);
  }

  ghost predicate StrictlySorted(ks: seq<TeamKey>)
  {
    forall i, j :: 0 <= i < j < |ks| ==> KeyLt(ks[i], ks[j])
  }

  /** Inserts `k` into a strictly sorted list, unless it is already there. */
  function Insert(k: TeamKey, ks: seq<TeamKey>): seq<TeamKey>
  {
    if ks == [] then [k]
    else if k == ks[0] then ks
    else if KeyLt(k, ks[0]) then [k] + ks
    else [ks[0]] + Insert(k, ks[1..])
  }

  lemma {:induction false} InsertKeepsSorted(k: TeamKey, ks: seq<TeamKey>)
    requires StrictlySorted(ks)
    ensures StrictlySorted(Insert(k, ks))
    ensures forall x :: x in Insert(k, ks) <==> x in ks || x == k
    decreases |ks|
  {
    if ks == [] {
    } else if k == ks[0] {
    } else if KeyLt(k, ks[0]) {
      forall j | 0 <= j < |ks| ensures KeyLt(k, ks[j]) {
        if j > 0 {
          KeyLtTransitive(k, ks[0], ks[j]);
        }
      }
    } else {
      InsertKeepsSorted(k, ks[1..]);
      KeyLtTotal(k, ks[0]);
      var r := Insert(k, ks[1..]);
      assert ks == [ks[0]] + ks[1..];
      forall x | x in r ensures KeyLt(ks[0], x) {
        if x != k {
          var j :| 0 <= j < |ks[1..]| && ks[1..][j] == x;
          assert ks[j + 1] == x;
        }
      }
    }
  }

  /** The distinct keys of `ks` in strictly increasing order, as the
      pivot table's sorted group index lists them. */
  function SortKeys(ks: seq<TeamKey>): seq<TeamKey>
  {
    if ks == [] then [] else Insert(ks[|ks| - 1], SortKeys(ks[..|ks| - 1]))
  }

  lemma {:induction false} SortKeysSpec(ks: seq<TeamKey>)
    ensures StrictlySorted(SortKeys(ks))
    ensures forall x :: x in SortKeys(ks) <==> x in ks
    decreases |ks|
  {
    if ks != [] {
      var init := ks[..|ks| - 1];
      SortKeysSpec(init);
      InsertKeepsSorted(ks[|ks| - 1], SortKeys(init));
      assert ks == init + [ks[|ks| - 1]];
    }
  }
}
