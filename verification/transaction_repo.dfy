/** The transaction store: an append-only log in which the record with id
    `n` sits at index `n - 1` (the AUTOINCREMENT primary key). */
module TransactionRepo {
  import opened Wrappers
  import opened TransactionModel

  type Log = seq<Transaction>

  /** Result of `Create`: the grown log and the id it assigned. */
  datatype Created = Created(log: Log, id: int)

  /** The id a record carries, or 0 before it has one (stored ids are >= 1). */
  function Key(t: Transaction): int
  {
    if t.id.Some? then t.id.value else 0
  }

  /** Record `i` carries id `i + 1`. */
  ghost predicate IdsSequential(log: Log)
  {
    forall i :: 0 <= i < |log| ==> log[i].id == Some(i + 1)
  }

  ghost predicate Ascending(s: seq<Transaction>)
  {
    forall i, j :: 0 <= i < j < |s| ==> Key(s[i]) < Key(s[j])
  }

  ghost predicate Descending(s: seq<Transaction>)
  {
    forall i, j :: 0 <= i < j < |s| ==> Key(s[i]) > Key(s[j])
  }

  lemma SequentialIsAscending(log: Log)
    requires IdsSequential(log)
    ensures Ascending(log)
  {
  }

  /** Appends `t` under the next id and returns that id. */
  function Create(log: Log, t: Transaction): (r: Created)
    ensures |r.log| == |log| + 1 && r.log[..|log|] == log
    ensures FindById(r.log, r.id) == Some(t.(id := Some(r.id)))
    ensures |log| == 0 ==> r.id == 1
    ensures IdsSequential(log) ==> IdsSequential(r.log)
    ensures IdsSequential(log) ==> forall i :: 0 <= i < |log| ==> Key(log[i]) < r.id
  {
    var id := |log| + 1;
    Created(log + [t.(id := Some(id))], id)
  }

  /** Lookup by id; with sequential ids this is a lookup of the id column. */
  function FindById(log: Log, id: int): (r: Option<Transaction>)
    ensures r.Some? ==> 1 <= id <= |log| && r.value == log[id - 1]
    ensures IdsSequential(log) ==> (r.Some? <==> exists i :: 0 <= i < |log| && log[i].id == Some(id))
    ensures IdsSequential(log) && r.Some? ==> r.value in log && r.value.id == Some(id)
  {
    if 1 <= id <= |log| then Some(log[id - 1]) else None
  }

  /** Overwrites status and operator of record `id`, whatever its current
      status; an unknown id changes nothing. */
  function UpdateStatus(log: Log, id: int, status: Status, operator: string): (r: Log)
    ensures |r| == |log|
    ensures forall i :: 0 <= i < |log| && i != id - 1 ==> r[i] == log[i]
    ensures 1 <= id <= |log| ==> r[id - 1] == log[id - 1].(status := status, operator := Some(operator))
    ensures FindById(log, id).None? ==> r == log
    ensures IdsSequential(log) ==> IdsSequential(r)
  {
    if 1 <= id <= |log| then log[id - 1 := log[id - 1].(status := status, operator := Some(operator))]
    else log
  }

  /** `r` is a subsequence of `s`: its elements occur in `s` in the same order. */
  ghost predicate Embeds(r: seq<Transaction>, s: seq<Transaction>)
    decreases |s|
  {
    || |r| == 0
    || (&& |s| > 0
        && ((r[0] == s[0] && Embeds(r[1..], s[1..])) || Embeds(r, s[1..])))
  }

  /** The records satisfying `p`, in log order. */
  function Select(s: seq<Transaction>, p: Transaction -> bool): (r: seq<Transaction>)
    ensures |r| <= |s|
    ensures forall i :: 0 <= i < |r| ==> p(r[i]) && r[i] in s
    ensures forall t :: t in s && p(t) ==> t in r
  {
    if |s| == 0 then []
    else
      var rest := Select(s[1..], p);
      assert forall t :: t in s ==> t == s[0] || t in s[1..];
      if p(s[0]) then [s[0]] + rest else rest
  }

  /** Selection keeps the records in log order: the result is a subsequence of `s`. */
  lemma {:induction false} SelectInOrder(s: seq<Transaction>, p: Transaction -> bool)
    ensures Embeds(Select(s, p), s)
    decreases |s|
  {
    if |s| > 0 {
      var rest := Select(s[1..], p);
      SelectInOrder(s[1..], p);
      if p(s[0]) {
        var r := [s[0]] + rest;
        assert Select(s, p) == r;
        assert r[1..] == rest;
      } else {
        assert Select(s, p) == rest;
      }
    }
  }

  /** Selection keeps the log's id order. */
  lemma {:induction false} SelectKeepsAscending(s: seq<Transaction>, p: Transaction -> bool)
    requires Ascending(s)
    ensures Ascending(Select(s, p))
    decreases |s|
  {
    if |s| > 0 {
      var tail := s[1..];
      SelectKeepsAscending(tail, p);
      var rest := Select(tail, p);
      forall i | 0 <= i < |rest|
        ensures Key(s[0]) < Key(rest[i])
      {
        var k :| 0 <= k < |tail| && tail[k] == rest[i];
        assert s[k + 1] == rest[i];
      }
    }
  }

  /** `s` newest first. */
  function Reverse(s: seq<Transaction>): (r: seq<Transaction>)
    ensures |r| == |s|
    ensures forall i :: 0 <= i < |s| ==> r[i] == s[|s| - 1 - i]
  {
    if |s| == 0 then [] else Reverse(s[1..]) + [s[0]]
  }

  /** SQL `LIMIT`: at most `limit` leading rows; a negative limit means no bound. */
  function Take(s: seq<Transaction>, limit: int): (r: seq<Transaction>)
    ensures |r| <= |s| && r == s[..|r|]
    ensures limit >= 0 ==> |r| == if limit < |s| then limit else |s|
    ensures limit < 0 ==> r == s
  {
    if limit < 0 || limit >= |s| then s else s[..limit]
  }

  function IsPending(t: Transaction): bool
  {
    t.status == Pending
  }

  /** `t` involves `accountNo` (as sender or receiver) and was not denied. */
  function IsVisibleTo(accountNo: string, t: Transaction): bool
  {
    (t.sender == accountNo || t.receiver == accountNo) && t.status != Denied
  }

  function Visible(accountNo: string): Transaction -> bool
  {
    (t: Transaction) => IsVisibleTo(accountNo, t)
  }

  /** Pending records, oldest first, at most `limit`. */
  function FindPending(log: Log, limit: int): (r: seq<Transaction>)
    ensures forall i :: 0 <= i < |r| ==> r[i].status == Pending && r[i] in log
    ensures limit >= 0 ==> |r| <= limit
  {
    Take(Select(log, IsPending), limit)
  }

  /** Non-denied records involving `accountNo`, newest first, at most `limit`. */
  function FindByAccount(log: Log, accountNo: string, limit: int): (r: seq<Transaction>)
    ensures forall i :: 0 <= i < |r| ==>
      (r[i].sender == accountNo || r[i].receiver == accountNo) && r[i].status != Denied && r[i] in log
    ensures limit >= 0 ==> |r| <= limit
  {
    var matching := Select(log, Visible(accountNo));
    var newest := Reverse(matching);
    assert forall i :: 0 <= i < |newest| ==> newest[i] in matching;
    Take(newest, limit)
  }

  /** A record of `s` left out of `Take(s, limit)` sits past the cut, and the
      cut was made because the limit was reached. */
  lemma TakeOmitsOnlyPastLimit(s: seq<Transaction>, limit: int, t: Transaction)
    requires t in s && t !in Take(s, limit)
    ensures limit >= 0 && |Take(s, limit)| == limit
    ensures exists i :: limit <= i < |s| && s[i] == t
  {
    var r := Take(s, limit);
    var i :| 0 <= i < |s| && s[i] == t;
  }

  lemma ReverseOfAscending(s: seq<Transaction>)
    requires Ascending(s)
    ensures Descending(Reverse(s))
    ensures forall t :: t in s ==> t in Reverse(s)
  {
    var r := Reverse(s);
    forall t | t in s ensures t in r {
      var i :| 0 <= i < |s| && s[i] == t;
      assert r[|s| - 1 - i] == t;
    }
  }

  /** `FindPending` returns the oldest pending records in id order; a pending
      record is left out only when `limit` records older than it were returned. */
  lemma {:induction false} FindPendingIsOldestFirst(log: Log, limit: int)
    requires IdsSequential(log)
    ensures Ascending(FindPending(log, limit))
    ensures forall t :: t in log && t.status == Pending && t !in FindPending(log, limit) ==>
      limit >= 0 && |FindPending(log, limit)| == limit
      && forall j :: 0 <= j < limit ==> Key(FindPending(log, limit)[j]) < Key(t)
  {
    SequentialIsAscending(log);
    var all := Select(log, IsPending);
    var r := FindPending(log, limit);
    SelectKeepsAscending(log, IsPending);
    forall t | t in log && t.status == Pending && t !in r
      ensures limit >= 0 && |r| == limit && forall j :: 0 <= j < limit ==> Key(r[j]) < Key(t)
    {
      assert IsPending(t);
      TakeOmitsOnlyPastLimit(all, limit, t);
      var i :| limit <= i < |all| && all[i] == t;
      forall j | 0 <= j < limit ensures Key(r[j]) < Key(t) {
        assert r[j] == all[j];
      }
    }
  }

  /** `FindByAccount` returns the newest visible records in descending id
      order; a visible record is left out only when `limit` newer ones were
      returned. */
  lemma {:induction false} FindByAccountIsNewestFirst(log: Log, accountNo: string, limit: int)
    requires IdsSequential(log)
    ensures Descending(FindByAccount(log, accountNo, limit))
    ensures forall t :: t in log && IsVisibleTo(accountNo, t) && t !in FindByAccount(log, accountNo, limit) ==>
      limit >= 0 && |FindByAccount(log, accountNo, limit)| == limit
      && forall j :: 0 <= j < limit ==> Key(FindByAccount(log, accountNo, limit)[j]) > Key(t)
  {
    SequentialIsAscending(log);
    var all := Select(log, Visible(accountNo));
    SelectKeepsAscending(log, Visible(accountNo));
    ReverseOfAscending(all);
    var newest := Reverse(all);
    var r := FindByAccount(log, accountNo, limit);
    assert r == Take(newest, limit);
    forall t | t in log && IsVisibleTo(accountNo, t) && t !in r
      ensures limit >= 0 && |r| == limit && forall j :: 0 <= j < limit ==> Key(r[j]) > Key(t)
    {
      assert Visible(accountNo)(t);
      assert t in newest;
      TakeOmitsOnlyPastLimit(newest, limit, t);
      var i :| limit <= i < |newest| && newest[i] == t;
      forall j | 0 <= j < limit ensures Key(r[j]) > Key(t) {
        assert r[j] == newest[j];
      }
    }
  }
}
