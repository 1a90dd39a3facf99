/** How the relay reads the replies of the stream commands: nested arrays that may hold anything. */
module RelayReplies {
  import opened Collections

  datatype Value = Text(text: string) | Array(items: seq<Value>) | Other

  datatype StreamEntry = StreamEntry(id: string, value: string)

  /** The first value under an `event` field, fields and values alternating. */
  function EventField(fields: seq<Value>): Option<string> {
    if |fields| < 2 then None
    else if fields[0] == Text("event") && fields[1].Text? then Some(fields[1].text)
    else EventField(fields[2..])
  }

  /** The entry an item stands for; an item without an event stands for none. */
  function EntryOf(item: Value): Option<StreamEntry> {
    if !item.Array? || |item.items| < 2 || !item.items[0].Text? || !item.items[1].Array? then None
    else
      match EventField(item.items[1].items)
      case None => None
      case Some(event) => Some(StreamEntry(item.items[0].text, event))
  }

  function Entries(items: seq<Value>): seq<StreamEntry> {
    if items == [] then []
    else
      Entries(items[..|items| - 1]) +
      match EntryOf(items[|items| - 1])
      case None => []
      case Some(entry) => [entry]
  }

  method ParseFieldArray(value: Value) returns (r: Option<string>)
    ensures r == if value.Array? then EventField(value.items) else None
  {
    if !value.Array? { return None; }
    var fields := value.items;
    var index := 0;
    while index < |fields| - 1
      invariant 0 <= index <= |fields| && EventField(fields[index..]) == EventField(fields)
    {
      if fields[index] == Text("event") && fields[index + 1].Text? {
        return Some(fields[index + 1].text);
      }
      assert fields[index..][2..] == fields[index + 2..];
      index := index + 2;
    }
    r := None;
  }

  method ParseEntries(value: Value) returns (r: seq<StreamEntry>)
    ensures r == if value.Array? then Entries(value.items) else []
  {
    if !value.Array? { return []; }
    r := [];
    for i := 0 to |value.items|
      invariant r == Entries(value.items[..i])
    {
      var item := value.items[i];
      assert value.items[..i + 1][..i] == value.items[..i];
      if !item.Array? || |item.items| == 0 || !item.items[0].Text? { continue; }
      var event := ParseFieldArray(if |item.items| > 1 then item.items[1] else Other);
      if event.Some? {
        r := r + [StreamEntry(item.items[0].text, event.value)];
      }
    }
    assert value.items[..|value.items|] == value.items;
  }

  method ParseXReadGroupReply(value: Value) returns (r: seq<StreamEntry>)
    ensures r == if value.Array? && |value.items| > 0 && value.items[0].Array? && |value.items[0].items| > 1
      && value.items[0].items[1].Array?
                 then Entries(value.items[0].items[1].items) else []
  {
    if !value.Array? { return []; }
    var stream := if |value.items| > 0 then value.items[0] else Other;
    if !stream.Array? { return []; }
    r := ParseEntries(if |stream.items| > 1 then stream.items[1] else Other);
  }

  method ParseXAutoClaimReply(value: Value) returns (r: seq<StreamEntry>)
    ensures r == if value.Array? && |value.items| > 1 && value.items[1].Array? then Entries(value.items[1].items)
      else []
  {
    if !value.Array? { return []; }
    r := ParseEntries(if |value.items| > 1 then value.items[1] else Other);
  }

  // ---- What a reply carries ----

  /** The alternating fields of an entry as the server lists them. */
  function Fields(pairs: seq<(string, string)>): seq<Value> {
    if pairs == [] then [] else [Text(pairs[0].0), Text(pairs[0].1)] + Fields(pairs[1..])
  }

  function Item(id: string, pairs: seq<(string, string)>): Value {
    Array([Text(id), Array(Fields(pairs))])
  }

  /** The value of an entry's first `event` field is found wherever it stands among the fields. */
  lemma {:induction false} EventIsFound(pairs: seq<(string, string)>, k: nat)
    requires k < |pairs| && pairs[k].0 == "event" && forall i :: 0 <= i < k ==> pairs[i].0 != "event"
    ensures EventField(Fields(pairs)) == Some(pairs[k].1)
  {
    if k > 0 {
      EventIsFound(pairs[1..], k - 1);
      assert Fields(pairs)[2..] == Fields(pairs[1..]);
    }
  }

  lemma {:induction false} NoEventIsNone(pairs: seq<(string, string)>)
    ensures EventField(Fields(pairs)).None? <==> forall i :: 0 <= i < |pairs| ==> pairs[i].0 != "event"
  {
    if pairs != [] {
      NoEventIsNone(pairs[1..]);
      assert Fields(pairs)[2..] == Fields(pairs[1..]);
      if pairs[0].0 != "event" {
        assert forall i :: 0 <= i < |pairs[1..]| ==> pairs[1..][i] == pairs[i + 1];
        assert forall i :: 1 <= i < |pairs| ==> pairs[i] == pairs[1..][i - 1];
      }
    }
  }

  type Listed = (string, seq<(string, string)>)

  function Items(entries: seq<Listed>): seq<Value> {
    seq(|entries|, i requires 0 <= i < |entries| => Item(entries[i].0, entries[i].1))
  }

  /** Every entry has an event. */
  ghost predicate AllHaveEvents(entries: seq<Listed>) {
    forall i :: 0 <= i < |entries| ==> EventField(Fields(entries[i].1)).Some?
  }

  /** What comes out of a reply, measured against what went in. */
  ghost predicate ComesOut(entries: seq<Listed>, r: seq<StreamEntry>) {
    && |r| <= |entries|
    && (|r| == |entries| <==> AllHaveEvents(entries))
    && (|r| == |entries| ==> forall i :: 0 <= i < |entries| ==>
          r[i].id == entries[i].0 && EventField(Fields(entries[i].1)) == Some(r[i].value))
  }

  lemma EntriesStep(entries: seq<Listed>, last: Listed)
    ensures
      var event := EventField(Fields(last.1));
      Entries(Items(entries + [last]))
        == Entries(Items(entries)) + if event.Some? then [StreamEntry(last.0, event.value)] else []
  {
    hide EventField, Fields;
    assert Items(entries + [last]) == Items(entries) + [Item(last.0, last.1)];
    assert (Items(entries) + [Item(last.0, last.1)])[..|entries|] == Items(entries);
  }

  lemma ComesOutStep(entries: seq<Listed>, last: Listed, r: seq<StreamEntry>)
    requires ComesOut(entries, r)
    ensures
      var event := EventField(Fields(last.1));
      ComesOut(entries + [last], r + if event.Some? then [StreamEntry(last.0, event.value)] else [])
  {
    hide EventField, Fields;
    var more := entries + [last];
    assert more[|entries|] == last && forall i :: 0 <= i < |entries| ==> more[i] == entries[i];
  }

  /** Every entry of a reply comes out once and in order exactly if each has an event; the others are passed over. */
  lemma {:induction false} RepliesRoundTrip(entries: seq<Listed>)
    ensures ComesOut(entries, Entries(Items(entries)))
  {
    if entries == [] {
      assert ComesOut([], Entries(Items([])));
    } else {
      hide EventField, Fields, ComesOut, Items, Entries;
      var rest, last := entries[..|entries| - 1], entries[|entries| - 1];
      assert entries == rest + [last];
      RepliesRoundTrip(rest);
      EntriesStep(rest, last);
      ComesOutStep(rest, last, Entries(Items(rest)));
    }
  }
}
