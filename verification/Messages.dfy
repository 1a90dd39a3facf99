/** The stored messages of one chat, as the database orders them. */
module Messages {
  import opened Collections

  type MessageId = nat
  type ClientId = nat

  datatype Message = Message(id: MessageId, sequence: nat, client: ClientId, body: string)

  /** Sequences are unique within a chat and a history lists them in increasing order. */
  ghost predicate Ascending(s: seq<Message>) {
    forall i, j :: 0 <= i < j < |s| ==> s[i].sequence < s[j].sequence
  }

  /** The messages above a cursor, in order. */
  function Above(s: seq<Message>, after: nat): seq<Message> {
    if s == [] then []
    else Above(s[..|s| - 1], after) + if s[|s| - 1].sequence > after then [s[|s| - 1]] else []
  }

  /** The messages below a cursor, in order. */
  function Below(s: seq<Message>, before: nat): seq<Message> {
    if s == [] then []
    else Below(s[..|s| - 1], before) + if s[|s| - 1].sequence < before then [s[|s| - 1]] else []
  }

  function LastSequence(s: seq<Message>, otherwise: nat): nat {
    if s == [] then otherwise else s[|s| - 1].sequence
  }

  /** In an ascending history what a cursor cuts off is a prefix: the first `k` messages pass it or do not. */
  ghost predicate CutAt(s: seq<Message>, k: nat, cursor: nat) {
    && k <= |s|
    && (forall i :: 0 <= i < k ==> s[i].sequence < cursor)
    && (forall i :: k <= i < |s| ==> s[i].sequence >= cursor)
  }

  lemma {:induction false} CutExists(s: seq<Message>, cursor: nat) returns (k: nat)
    requires Ascending(s)
    ensures CutAt(s, k, cursor)
  {
    k := 0;
    while k < |s| && s[k].sequence < cursor
      invariant k <= |s| && forall i :: 0 <= i < k ==> s[i].sequence < cursor
    {
      k := k + 1;
    }
  }

  lemma CutIsUnique(s: seq<Message>, j: nat, k: nat, cursor: nat)
    requires CutAt(s, j, cursor) && CutAt(s, k, cursor)
    ensures j == k
  {
    assert j < |s| ==> s[j].sequence >= cursor;
    assert k < |s| ==> s[k].sequence >= cursor;
  }

  lemma AboveStep(s: seq<Message>, n: nat, after: nat)
    requires 0 < n <= |s|
    ensures Above(s[..n], after) == Above(s[..n - 1], after) + if s[n - 1].sequence > after then [s[n - 1]] else []
  {
    assert s[..n][..n - 1] == s[..n - 1];
  }

  lemma BelowStep(s: seq<Message>, n: nat, before: nat)
    requires 0 < n <= |s|
    ensures Below(s[..n], before) == Below(s[..n - 1], before) + if s[n - 1].sequence < before then [s[n - 1]] else []
  {
    assert s[..n][..n - 1] == s[..n - 1];
  }

  lemma {:induction false} AboveCut(s: seq<Message>, k: nat, n: nat, after: nat)
    requires CutAt(s, k, after + 1) && n <= |s|
    ensures Above(s[..n], after) == if k <= n then s[k..n] else []
    decreases n
  {
    assert Above([], after) == [];
    hide Above;
    if n > 0 {
      AboveStep(s, n, after);
      AboveCut(s, k, n - 1, after);
    }
  }

  lemma {:induction false} BelowCut(s: seq<Message>, k: nat, n: nat, before: nat)
    requires CutAt(s, k, before) && n <= |s|
    ensures Below(s[..n], before) == if k <= n then s[..k] else s[..n]
    decreases n
  {
    assert Below([], before) == [];
    hide Below;
    if n > 0 {
      BelowStep(s, n, before);
      BelowCut(s, k, n - 1, before);
    }
  }

  /** Above a cursor lies a suffix of the history. */
  lemma AboveIsSuffix(s: seq<Message>, after: nat) returns (k: nat)
    requires Ascending(s)
    ensures CutAt(s, k, after + 1) && Above(s, after) == s[k..]
  {
    k := CutExists(s, after + 1);
    AboveCut(s, k, |s|, after);
    assert s[..|s|] == s;
  }

  /** Below a cursor lies a prefix of the history. */
  lemma BelowIsPrefix(s: seq<Message>, before: nat) returns (k: nat)
    requires Ascending(s)
    ensures CutAt(s, k, before) && Below(s, before) == s[..k]
  {
    k := CutExists(s, before);
    BelowCut(s, k, |s|, before);
    assert s[..|s|] == s;
  }

  /** What lies below a cursor does not change while the history grows at its end. */
  lemma BelowIsStable(s: seq<Message>, t: seq<Message>, before: nat)
    requires Ascending(t) && s <= t && s != [] && before <= LastSequence(s, 0)
    ensures Below(t, before) == Below(s, before)
  {
    hide Below;
    assert forall i :: 0 <= i < |s| ==> s[i] == t[i];
    var j := BelowIsPrefix(s, before);
    assert CutAt(t, j, before) by { assert forall i :: |s| <= i < |t| ==> t[|s| - 1].sequence < t[i].sequence; }
    BelowCut(t, j, |t|, before);
    assert t[..|t|] == t;
  }

  /** What lies above a cursor only grows at its end. */
  lemma AboveGrows(s: seq<Message>, t: seq<Message>, after: nat)
    requires Ascending(t) && s <= t
    ensures Above(s, after) <= Above(t, after)
  {
    hide Above;
    assert forall i :: 0 <= i < |s| ==> s[i] == t[i];
    var j := AboveIsSuffix(s, after);
    var k := AboveIsSuffix(t, after);
    if k <= |s| {
      CutIsUnique(s, j, k, after + 1);
    } else {
      CutIsUnique(s, j, |s|, after + 1);
    }
  }

  /** A prefix of what lies above a cursor leaves exactly what lies above its last message. */
  lemma AboveSplits(s: seq<Message>, after: nat, head: seq<Message>)
    requires Ascending(s) && head <= Above(s, after)
    ensures Above(s, after) == head + Above(s, LastSequence(head, after))
  {
    hide Above;
    var j := AboveIsSuffix(s, after);
    assert s[j..] == head + s[j..][|head|..];
    assert CutAt(s, j + |head|, LastSequence(head, after) + 1) by {
      assert forall i :: 0 <= i < |head| ==> head[i] == s[j + i];
    }
    AboveCut(s, j + |head|, |s|, LastSequence(head, after));
    assert s[..|s|] == s;
  }
}
