/** `getTransactionHistory`: one user's transactions, newest first, one
    page at a time. */
module History {
  import opened Common
  import opened DbSchema
  import opened ApiSchema

  const DefaultLimit := 10

  /** `input.limit || 10`: an absent (or zero) limit becomes 10. */
  function EffectiveLimit(limit: Option<int>): (r: int)
    ensures limit.Some? && limit.value != 0 ==> r == limit.value
    ensures limit.None? || limit.value == 0 ==> r == DefaultLimit
  {
    if limit.None? || limit.value == 0 then DefaultLimit else limit.value
  }

  /** `input.offset || 0`. */
  function EffectiveOffset(offset: Option<int>): (r: int)
    ensures offset.Some? ==> r == offset.value
    ensures offset.None? ==> r == 0
  {
    if offset.None? then 0 else offset.value
  }

  /** Once the input schema has accepted the paging arguments, the page
      size is positive and the offset is not negative: the given values, or
      10 and 0 when absent. */
  lemma PagingDefaults(input: HistoryInput)
    requires ValidHistoryInput(input)
    ensures EffectiveLimit(input.limit) >= 1
    ensures EffectiveLimit(input.limit) == if input.limit.Some? then input.limit.value else DefaultLimit
    ensures EffectiveOffset(input.offset) >= 0
    ensures EffectiveOffset(input.offset) == if input.offset.Some? then input.offset.value else 0
  {
  }

  /** `where user_id = ?`. */
  function OfUser(transactions: seq<Transaction>, userId: int): (r: seq<Transaction>)
    ensures forall t :: t in r <==> t in transactions && t.userId == userId
    ensures forall t :: multiset(r)[t] == if t.userId == userId then multiset(transactions)[t] else 0
  {
    Filter((t: Transaction) => t.userId == userId, transactions)
  }

  /** `order by created_at desc`. */
  predicate NewestFirst(s: seq<Transaction>)
  {
    forall i, j :: 0 <= i < j < |s| ==> s[i].createdAt >= s[j].createdAt
  }

  /** A row no older than every row of a newest-first list can go in front. */
  lemma PrependNewest(x: Transaction, s: seq<Transaction>)
    requires NewestFirst(s)
    requires forall j :: 0 <= j < |s| ==> s[j].createdAt <= x.createdAt
    ensures NewestFirst([x] + s)
  {
    var r := [x] + s;
    forall i, j | 0 <= i < j < |r| ensures r[i].createdAt >= r[j].createdAt {
      assert r[j] == s[j - 1];
      if i > 0 {
        assert r[i] == s[i - 1];
      }
    }
  }

  /** The head of a newest-first list is no older than any row of a
      permutation of its tail plus an older row `t`. */
  lemma HeadNewest(t: Transaction, s: seq<Transaction>, rest: seq<Transaction>)
    requires NewestFirst(s) && s != [] && t.createdAt < s[0].createdAt
    requires multiset(rest) == multiset(s[1..]) + multiset{t}
    ensures forall j :: 0 <= j < |rest| ==> rest[j].createdAt <= s[0].createdAt
  {
    var tail := s[1..];
    forall j | 0 <= j < |rest| ensures rest[j].createdAt <= s[0].createdAt {
      var x := rest[j];
      assert x in multiset(rest);
      if x != t {
        assert x in multiset(tail);
        var k :| 0 <= k < |tail| && tail[k] == x;
        assert s[k + 1] == x;
      }
    }
  }

  /** Places `t` before the first row that is not newer than it, so rows
      with equal timestamps keep their table order. */
  function InsertNewest(t: Transaction, s: seq<Transaction>): (r: seq<Transaction>)
    requires NewestFirst(s)
    ensures NewestFirst(r)
    ensures multiset(r) == multiset(s) + multiset{t}
  {
    if s == [] then [t]
    else if s[0].createdAt <= t.createdAt then
      PrependNewest(t, s);
      [t] + s
    else
      assert s == [s[0]] + s[1..];
      var rest := InsertNewest(t, s[1..]);
      HeadNewest(t, s, rest);
      PrependNewest(s[0], rest);
      [s[0]] + rest
  }

  function SortNewestFirst(s: seq<Transaction>): (r: seq<Transaction>)
    ensures NewestFirst(r)
    ensures multiset(r) == multiset(s)
  {
    if s == [] then []
    else
      assert s == [s[0]] + s[1..];
      InsertNewest(s[0], SortNewestFirst(s[1..]))
  }

  /** `offset(offset).limit(limit)`: skip `offset` rows, then take at most
      `limit`. */
  function Page<T>(rows: seq<T>, offset: nat, limit: nat): (r: seq<T>)
    ensures |r| <= limit
    ensures |r| == if offset >= |rows| then 0
                   else if limit <= |rows| - offset then limit else |rows| - offset
    ensures forall i :: 0 <= i < |r| ==> r[i] == rows[offset + i]
  {
    var rest := if offset <= |rows| then rows[offset..] else [];
    if limit <= |rest| then rest[..limit] else rest
  }

  /** Each page is its own request. When a newer row arrives between two
      requests it sorts first, and the next page starts with the last row
      of the previous one. */
  lemma PageAfterNewRowRepeats<T>(rows: seq<T>, t: T, offset: nat, limit: nat)
    requires 0 < limit && offset + limit <= |rows|
    ensures |Page([t] + rows, offset + limit, limit)| > 0
    ensures Page([t] + rows, offset + limit, limit)[0] == Page(rows, offset, limit)[limit - 1]
  {
  }

  /** All of one user's rows, newest first. */
  function UserHistory(transactions: seq<Transaction>, userId: int): (r: seq<Transaction>)
    ensures NewestFirst(r)
    ensures forall t :: multiset(r)[t] == if t.userId == userId then multiset(transactions)[t] else 0
    ensures forall t :: t in r ==> t in transactions && t.userId == userId
    ensures |r| == |OfUser(transactions, userId)|
  {
    var all := OfUser(transactions, userId);
    var r := SortNewestFirst(all);
    assert |multiset(r)| == |multiset(all)|;
    assert forall t :: t in r ==> t in multiset(r);
    r
  }

  lemma PageNewestFirst(rows: seq<Transaction>, offset: nat, limit: nat)
    requires NewestFirst(rows)
    ensures NewestFirst(Page(rows, offset, limit))
  {
    var r := Page(rows, offset, limit);
    forall i, j | 0 <= i < j < |r| ensures r[i].createdAt >= r[j].createdAt {
      assert r[i] == rows[offset + i] && r[j] == rows[offset + j];
    }
  }

  lemma PageWithin<T>(rows: seq<T>, offset: nat, limit: nat)
    ensures forall x :: x in Page(rows, offset, limit) ==> x in rows
  {
    var r := Page(rows, offset, limit);
    forall x | x in r ensures x in rows {
      var i :| 0 <= i < |r| && r[i] == x;
      assert rows[offset + i] == x;
    }
  }

  /** `getTransactionHistory`: the window of `UserHistory` that starts
      `offset` rows in and holds up to `limit` rows. */
  function TransactionHistory(transactions: seq<Transaction>, input: HistoryInput): (r: seq<Transaction>)
    requires ValidHistoryInput(input)
    ensures forall t :: t in r ==> t in transactions && t.userId == input.userId
    ensures NewestFirst(r)
    ensures |r| <= EffectiveLimit(input.limit)
    ensures var rows, offset, limit :=
              UserHistory(transactions, input.userId), EffectiveOffset(input.offset), EffectiveLimit(input.limit);
            && |r| == (if offset >= |rows| then 0 else if limit <= |rows| - offset then limit else |rows| - offset)
            && forall i :: 0 <= i < |r| ==> r[i] == rows[offset + i]
  {
    var rows := UserHistory(transactions, input.userId);
    var offset: nat, limit: nat := EffectiveOffset(input.offset), EffectiveLimit(input.limit);
    PageNewestFirst(rows, offset, limit);
    PageWithin(rows, offset, limit);
    Page(rows, offset, limit)
  }

  /** Without paging arguments the first ten of the user's rows are returned,
      or all of them when there are fewer. */
  lemma DefaultPage(transactions: seq<Transaction>, userId: int)
    ensures var r := TransactionHistory(transactions, HistoryInput(userId, None, None));
            var all := OfUser(transactions, userId);
            && |r| == (if |all| <= 10 then |all| else 10)
            && r == UserHistory(transactions, userId)[..|r|]
  {
    var r := TransactionHistory(transactions, HistoryInput(userId, None, None));
    var rows := UserHistory(transactions, userId);
    assert |r| <= |rows|;
    assert forall i :: 0 <= i < |r| ==> r[i] == rows[..|r|][i];
  }

  /** The first page, when it is large enough, holds every one of the user's
      transactions (as many times as the table holds it). */
  lemma FirstPageComplete(transactions: seq<Transaction>, input: HistoryInput)
    requires ValidHistoryInput(input)
    requires EffectiveOffset(input.offset) == 0
    requires |OfUser(transactions, input.userId)| <= EffectiveLimit(input.limit)
    ensures multiset(TransactionHistory(transactions, input)) == multiset(OfUser(transactions, input.userId))
  {
    var r := TransactionHistory(transactions, input);
    var rows := UserHistory(transactions, input.userId);
    assert r == rows;
  }

  /** A user without transactions gets an empty list, whatever the page. */
  lemma NoTransactionsNoHistory(transactions: seq<Transaction>, input: HistoryInput)
    requires ValidHistoryInput(input)
    requires forall t :: t in transactions ==> t.userId != input.userId
    ensures TransactionHistory(transactions, input) == []
  {
  }

  /** Two consecutive pages cut from the same list join up: neither skips
      nor repeats a row of it. */
  lemma PagesJoin<T>(rows: seq<T>, offset: nat, first: nat, second: nat)
    ensures Page(rows, offset, first) + Page(rows, offset + first, second)
         == Page(rows, offset, first + second)
  {
    var a, b := Page(rows, offset, first), Page(rows, offset + first, second);
    var c := Page(rows, offset, first + second);
    assert |a + b| == |c|;
    forall i | 0 <= i < |c| ensures (a + b)[i] == c[i] {
      if i >= |a| {
        assert (a + b)[i] == b[i - |a|];
      }
    }
  }

  function Reverse<T>(s: seq<T>): (r: seq<T>)
    ensures |r| == |s|
  {
    if s == [] then [] else Reverse(s[1..]) + [s[0]]
  }

  /** Rows written by a clock that always advances. */
  predicate Chronological(s: seq<Transaction>)
  {
    forall i, j :: 0 <= i < j < |s| ==> s[i].createdAt < s[j].createdAt
  }

  lemma {:induction false} InsertOldest(t: Transaction, s: seq<Transaction>)
    requires NewestFirst(s)
    requires forall j :: 0 <= j < |s| ==> t.createdAt < s[j].createdAt
    ensures InsertNewest(t, s) == s + [t]
  {
    if s != [] {
      InsertOldest(t, s[1..]);
      assert s == [s[0]] + s[1..];
    }
  }

  /** When timestamps strictly increase along the table, newest first is
      exactly the reverse of insertion order. */
  lemma ChronologicalTail(s: seq<Transaction>)
    requires Chronological(s) && s != []
    ensures Chronological(s[1..])
    ensures forall j :: 0 <= j < |s| - 1 ==> s[0].createdAt < s[1..][j].createdAt
  {
    forall i, j | 0 <= i < j < |s| - 1 ensures s[1..][i].createdAt < s[1..][j].createdAt {
      assert s[1..][i] == s[i + 1] && s[1..][j] == s[j + 1];
    }
  }

  /** Any permutation of rows all newer than `x` has only rows newer than `x`. */
  lemma NewerPermutation(x: Transaction, tail: seq<Transaction>, rest: seq<Transaction>)
    requires forall j :: 0 <= j < |tail| ==> x.createdAt < tail[j].createdAt
    requires multiset(rest) == multiset(tail)
    ensures forall j :: 0 <= j < |rest| ==> x.createdAt < rest[j].createdAt
  {
    forall j | 0 <= j < |rest| ensures x.createdAt < rest[j].createdAt {
      assert rest[j] in multiset(tail);
      var k :| 0 <= k < |tail| && tail[k] == rest[j];
    }
  }

  lemma {:induction false} ChronologicalNewestFirst(s: seq<Transaction>)
    requires Chronological(s)
    ensures SortNewestFirst(s) == Reverse(s)
  {
    if s != [] {
      ChronologicalTail(s);
      var rest := SortNewestFirst(s[1..]);
      ChronologicalNewestFirst(s[1..]);
      NewerPermutation(s[0], s[1..], rest);
      InsertOldest(s[0], rest);
    }
  }
}
