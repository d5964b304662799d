/** The conversion of values that cross the sandbox pipes: into the plain
    structure that is written as JSON, and back into a message. */
module PlainValues {
  import opened Options

  /** A dictionary key: a string, or something else with its printed form. */
  datatype Key = Name(s: string) | Other(printed: string) {
    function Str(): string {
      if Name? then s else printed
    }
  }

  datatype Entry = Entry(key: Key, value: Value)

  /** Values in both processes. A scalar is a number or a truth value, a record
      any other object with its public attributes, and an opaque value one that
      has none and is only printed. */
  datatype Value =
    | Nil
    | Scalar(repr: string)
    | Text(s: string)
    | List(items: seq<Value>)
    | Dict(entries: seq<Entry>)
    | Segment(kind: string, data: Value)
    | Message(segments: seq<Value>)
    | Record(fields: seq<Entry>)
    | Opaque(printed: string)

  const MESSAGE := "__message__"

  // ---------------------------------------------------------------- into plain values

  /** A dictionary assignment: an old key keeps its place. */
  function Put(d: seq<Entry>, key: string, v: Value): seq<Entry> {
    if d == [] then [Entry(Name(key), v)]
    else if d[0].key == Name(key) then [Entry(Name(key), v)] + d[1..]
    else [d[0]] + Put(d[1..], key, v)
  }

  function ToPlain(v: Value): Value
    decreases v
  {
    match v
    case Nil => v
    case Scalar(_) => v
    case Text(_) => v
    case List(items) => List(AllPlain(items))
    case Dict(entries) => Dict(EntriesPlain(entries))
    case Segment(kind, data) => Dict([Entry(Name("type"), Text(kind)), Entry(Name("data"), ToPlain(data))])
    case Message(segments) => Dict([Entry(Name(MESSAGE), List(AllPlain(segments)))])
    case Record(fields) => Dict(EntriesPlain(fields))
    case Opaque(printed) => Text(printed)
  }

  function AllPlain(items: seq<Value>): (r: seq<Value>)
    ensures |r| == |items|
    decreases items
  {
    if items == [] then []
    else AllPlain(items[..|items| - 1]) + [ToPlain(items[|items| - 1])]
  }

  function EntriesPlain(entries: seq<Entry>): seq<Entry>
    decreases entries
  {
    if entries == [] then []
    else
      var last := entries[|entries| - 1];
      Put(EntriesPlain(entries[..|entries| - 1]), last.key.Str(), PlainOf(last))
  }

  function PlainOf(e: Entry): Value
    decreases e
  {
    ToPlain(e.value)
  }

  /** Strings, scalars, lists and dictionaries with distinct string keys, all the way down. */
  predicate IsPlain(v: Value)
    decreases v
  {
    match v
    case Nil => true
    case Scalar(_) => true
    case Text(_) => true
    case List(items) => forall i :: 0 <= i < |items| ==> IsPlain(items[i])
    case Dict(entries) => ArePlain(entries) && forall i :: 0 <= i < |entries| ==> IsPlain(entries[i].value)
    case _ => false
  }

  /** Every key is a string, and no two are the same. */
  predicate ArePlain(entries: seq<Entry>) {
    && (forall i :: 0 <= i < |entries| ==> entries[i].key.Name?)
    && (forall i, j :: 0 <= i < j < |entries| ==> entries[i].key != entries[j].key)
  }

  predicate HasKey(d: seq<Entry>, key: string) {
    exists i :: 0 <= i < |d| && d[i].key == Name(key)
  }

  lemma {:induction false} PutKeys(d: seq<Entry>, key: string, v: Value)
    requires ArePlain(d)
    ensures var r := Put(d, key, v);
      && (forall i :: 0 <= i < |r| ==> r[i].key.Name?)
      && (forall i :: 0 <= i < |r| ==> r[i].key == Name(key) || HasKey(d, r[i].key.s))
      && (forall i :: 0 <= i < |r| ==> r[i].value == v || exists j :: 0 <= j < |d| && d[j] == r[i])
      && ArePlain(r)
  {
    if d != [] && d[0].key != Name(key) {
      var rest, tail := d[1..], Put(d[1..], key, v);
      PutKeys(rest, key, v);
      forall i | 0 <= i < |tail| ensures tail[i].key == Name(key) || HasKey(d, tail[i].key.s) {
        if tail[i].key != Name(key) {
          var j :| 0 <= j < |rest| && rest[j].key == Name(tail[i].key.s);
          assert d[j + 1].key == Name(tail[i].key.s);
        }
      }
      forall i | 0 <= i < |tail| ensures tail[i].value == v || exists j :: 0 <= j < |d| && d[j] == tail[i] {
        if tail[i].value != v {
          var j :| 0 <= j < |rest| && rest[j] == tail[i];
          assert d[j + 1] == tail[i];
        }
      }
      forall i | 0 <= i < |tail| ensures tail[i].key != d[0].key {
        if tail[i].key != Name(key) {
          var j :| 0 <= j < |rest| && rest[j].key == Name(tail[i].key.s);
          assert d[j + 1].key == tail[i].key;
        }
      }
    }
  }

  lemma {:induction false} PutNew(d: seq<Entry>, key: string, v: Value)
    requires !HasKey(d, key)
    ensures Put(d, key, v) == d + [Entry(Name(key), v)]
  {
    if d != [] {
      assert d[0].key != Name(key);
      assert !HasKey(d[1..], key) by {
        assert forall i :: 0 <= i < |d[1..]| ==> d[1..][i] == d[i + 1];
      }
      PutNew(d[1..], key, v);
      assert d == [d[0]] + d[1..];
    }
  }

  /** The result is always plain. */
  lemma {:induction false} ToPlainIsPlain(v: Value)
    ensures IsPlain(ToPlain(v))
    decreases v
  {
    match v
    case List(items) => AllPlainIsPlain(items);
    case Dict(entries) => EntriesPlainIsPlain(entries);
    case Segment(kind, data) => ToPlainIsPlain(data);
    case Message(segments) => AllPlainIsPlain(segments);
    case Record(fields) => EntriesPlainIsPlain(fields);
    case _ =>
  }

  lemma {:induction false} AllPlainIsPlain(items: seq<Value>)
    ensures forall i :: 0 <= i < |items| ==> IsPlain(AllPlain(items)[i])
    decreases items
  {
    if items != [] {
      AllPlainIsPlain(items[..|items| - 1]);
      ToPlainIsPlain(items[|items| - 1]);
    }
  }

  lemma {:induction false} EntriesPlainIsPlain(entries: seq<Entry>)
    ensures ArePlain(EntriesPlain(entries))
    ensures forall i :: 0 <= i < |EntriesPlain(entries)| ==> IsPlain(EntriesPlain(entries)[i].value)
    decreases entries
  {
    if entries != [] {
      var last := entries[|entries| - 1];
      EntriesPlainIsPlain(entries[..|entries| - 1]);
      EntryPlainIsPlain(last);
      PutKeys(EntriesPlain(entries[..|entries| - 1]), last.key.Str(), ToPlain(last.value));
    }
  }

  lemma {:induction false} EntryPlainIsPlain(e: Entry)
    ensures IsPlain(ToPlain(e.value))
    decreases e
  {
    ToPlainIsPlain(e.value);
  }

  /** A plain value is left as it is. */
  lemma {:induction false} PlainStays(v: Value)
    requires IsPlain(v)
    ensures ToPlain(v) == v
    decreases v
  {
    match v
    case List(items) => AllPlainStays(items);
    case Dict(entries) => EntriesStay(entries);
    case _ =>
  }

  lemma {:induction false} AllPlainStays(items: seq<Value>)
    requires forall i :: 0 <= i < |items| ==> IsPlain(items[i])
    ensures AllPlain(items) == items
    decreases items
  {
    if items != [] {
      AllPlainStays(items[..|items| - 1]);
      PlainStays(items[|items| - 1]);
    }
  }

  lemma {:induction false} EntriesStay(entries: seq<Entry>)
    requires ArePlain(entries) && forall i :: 0 <= i < |entries| ==> IsPlain(entries[i].value)
    ensures EntriesPlain(entries) == entries
    decreases entries
  {
    if entries != [] {
      var init, last := entries[..|entries| - 1], entries[|entries| - 1];
      EntriesStay(init);
      EntryStays(last);
      assert !HasKey(init, last.key.s);
      PutNew(init, last.key.s, last.value);
      assert entries == init + [last];
    }
  }

  lemma {:induction false} EntryStays(e: Entry)
    requires IsPlain(e.value)
    ensures ToPlain(e.value) == e.value
    decreases e
  {
    PlainStays(e.value);
  }

  /** Converting changes exactly the values that are not plain, and converting
      twice is converting once. */
  lemma PlainIff(v: Value)
    ensures ToPlain(v) == v <==> IsPlain(v)
    ensures ToPlain(ToPlain(v)) == ToPlain(v)
  {
    ToPlainIsPlain(v);
    PlainStays(ToPlain(v));
    if IsPlain(v) {
      PlainStays(v);
    }
  }

  // ---------------------------------------------------------------- back into a message

  function Field(entries: seq<Entry>, key: string): Option<Value> {
    if entries == [] then None
    else if entries[0].key == Name(key) then Some(entries[0].value)
    else Field(entries[1..], key)
  }

  /** A dictionary read as a segment; its kind is text unless it says otherwise. */
  function SegmentFrom(entries: seq<Entry>): Option<Value> {
    var kind, data := Field(entries, "type"), Field(entries, "data");
    if kind.Some? && !kind.value.Text? then None
    else Some(Segment(if kind.Some? then kind.value.s else "text", if data.Some? then data.value else Dict([])))
  }

  /** Elements that are no dictionaries are dropped; `None` stands for a kind that is no string. */
  function SegmentsFrom(items: seq<Value>): Option<seq<Value>> {
    if items == [] then Some([])
    else
      var init, last := SegmentsFrom(items[..|items| - 1]), items[|items| - 1];
      if init.None? || !last.Dict? then init
      else
        var s := SegmentFrom(last.entries);
        if s.None? then None else Some(init.value + [s.value])
  }

  /** What is read back from a plain message; `None` for a value that is only
      printed and for a number in the place of the segments. */
  function MessageFromPlain(v: Value): Option<Value> {
    if v.Nil? then Some(Message([]))
    else if v.Text? then Some(Message([Segment("text", Dict([Entry(Name("text"), v)]))]))
    else if v.Dict? && Field(v.entries, MESSAGE).Some? then
      var items := Field(v.entries, MESSAGE).value;
      if items.Nil? || items.Text? || items.Dict? then Some(Message([]))
      else if !items.List? then None
      else
        var s := SegmentsFrom(items.items);
        if s.None? then None else Some(Message(s.value))
    else None
  }

  predicate AreSegments(segments: seq<Value>) {
    forall i :: 0 <= i < |segments| ==> segments[i].Segment?
  }

  /** The segments with their data made plain. */
  function WithPlainData(segments: seq<Value>): (r: seq<Value>)
    requires AreSegments(segments)
    ensures |r| == |segments|
  {
    seq(|segments|, i requires 0 <= i < |segments| => Segment(segments[i].kind, ToPlain(segments[i].data)))
  }

  lemma SegmentComesBack(kind: string, data: Value)
    ensures SegmentFrom([Entry(Name("type"), Text(kind)), Entry(Name("data"), data)]) == Some(Segment(kind, data))
  {
    var entries := [Entry(Name("type"), Text(kind)), Entry(Name("data"), data)];
    assert "type"[0] != "data"[0];
    assert entries[1..] == [Entry(Name("data"), data)];
    assert Field(entries[1..], "data") == Some(data);
  }

  lemma {:induction false} SegmentsComeBack(segments: seq<Value>)
    requires AreSegments(segments)
    ensures SegmentsFrom(AllPlain(segments)) == Some(WithPlainData(segments))
  {
    if segments != [] {
      var init, last := segments[..|segments| - 1], segments[|segments| - 1];
      SegmentsComeBack(init);
      SegmentComesBack(last.kind, ToPlain(last.data));
      assert AllPlain(segments)[..|segments| - 1] == AllPlain(init);
      OneMorePlain(segments);
    }
  }

  lemma OneMorePlain(segments: seq<Value>)
    requires AreSegments(segments) && segments != []
    ensures var init, last := segments[..|segments| - 1], segments[|segments| - 1];
      WithPlainData(segments) == WithPlainData(init) + [Segment(last.kind, ToPlain(last.data))]
  {
  }

  /** A message that crosses the pipes comes back segment by segment with plain
      data, and unchanged exactly when its data was plain. */
  lemma MessageRoundTrip(segments: seq<Value>)
    requires AreSegments(segments)
    ensures MessageFromPlain(ToPlain(Message(segments))) == Some(Message(WithPlainData(segments)))
    ensures WithPlainData(segments) == segments <==> forall i :: 0 <= i < |segments| ==> IsPlain(segments[i].data)
  {
    SegmentsComeBack(segments);
    forall i | 0 <= i < |segments|
      ensures WithPlainData(segments)[i] == segments[i] <==> IsPlain(segments[i].data)
    {
      PlainIff(segments[i].data);
    }
  }

  // ---------------------------------------------------------------- what each value becomes

  lemma {:induction false} FieldAfterPut(d: seq<Entry>, key: string, v: Value, q: string)
    ensures Field(Put(d, key, v), q) == if q == key then Some(v) else Field(d, q)
  {
    if d != [] && d[0].key == Name(key) {
      assert ([Entry(Name(key), v)] + d[1..])[1..] == d[1..];
    } else if d != [] {
      assert ([d[0]] + Put(d[1..], key, v))[1..] == Put(d[1..], key, v);
      FieldAfterPut(d[1..], key, v, q);
    } else {
      assert [Entry(Name(key), v)][1..] == [];
    }
  }

  /** Under each key a converted dictionary, or record, holds what its last entry with
      this printed key becomes, and nothing under any other. */
  lemma {:induction false} EntriesSay(entries: seq<Entry>, key: string, i: nat)
    requires i <= |entries| && forall j :: i < j < |entries| ==> entries[j].key.Str() != key
    requires i < |entries| ==> entries[i].key.Str() == key
    requires i == |entries| ==> forall j :: 0 <= j < |entries| ==> entries[j].key.Str() != key
    ensures Field(EntriesPlain(entries), key) == if i < |entries| then Some(ToPlain(entries[i].value)) else None
    decreases |entries|
  {
    if entries != [] {
      var init, last := entries[..|entries| - 1], entries[|entries| - 1];
      FieldAfterPut(EntriesPlain(init), last.key.Str(), PlainOf(last), key);
      if last.key.Str() != key {
        EntriesSay(init, key, if i == |entries| then |init| else i);
      }
    }
  }

  lemma {:induction false} ItemsSay(items: seq<Value>, i: nat)
    requires i < |items|
    ensures AllPlain(items)[i] == ToPlain(items[i])
  {
    if i < |items| - 1 {
      ItemsSay(items[..|items| - 1], i);
    }
  }

  /** Lists go over item by item, dictionaries and records entry by entry, segments as
      their kind and data, messages as the list of their segments under one special
      key, and what has no attributes as its printed form. */
  lemma BecomesSays(items: seq<Value>, entries: seq<Entry>, kind: string, data: Value, i: nat, key: string, at: nat)
    requires i < |items|
    requires at < |entries| && entries[at].key.Str() == key
    requires forall j :: at < j < |entries| ==> entries[j].key.Str() != key
    ensures ToPlain(List(items)).List? && |ToPlain(List(items)).items| == |items|
    ensures ToPlain(List(items)).items[i] == ToPlain(items[i])
    ensures ToPlain(Dict(entries)).Dict?
    ensures Field(ToPlain(Dict(entries)).entries, key) == Some(ToPlain(entries[at].value))
    ensures ToPlain(Record(entries)) == ToPlain(Dict(entries))
    ensures ToPlain(Segment(kind, data))
         == Dict([Entry(Name("type"), Text(kind)), Entry(Name("data"), ToPlain(data))])
    ensures ToPlain(Message(items)) == Dict([Entry(Name("__message__"), ToPlain(List(items)))])
    ensures ToPlain(Opaque(kind)) == Text(kind)
  {
    ItemsSay(items, i);
    EntriesSay(entries, key, at);
  }

  /** A segment is read from a dictionary: of kind text if none is given, and with
      empty data if none is given; a kind that is no string has no segment. */
  lemma SegmentSays(entries: seq<Entry>)
    ensures var kind, data, s := Field(entries, "type"), Field(entries, "data"), SegmentFrom(entries);
      && (s.None? <==> kind.Some? && !kind.value.Text?)
      && (s.Some? ==>
            && s.value.Segment?
            && (kind == None ==> s.value.kind == "text") && (kind.Some? ==> kind.value == Text(s.value.kind))
            && (data == None ==> s.value.data == Dict([])) && (data.Some? ==> data.value == s.value.data))
  {
  }

  /** The segments are those of the dictionaries in the list, in order; other
      elements are dropped. */
  lemma SegmentsSay(items: seq<Value>, last: Value)
    ensures SegmentsFrom([]) == Some([])
    ensures SegmentsFrom(items).None? ==> SegmentsFrom(items + [last]).None?
    ensures SegmentsFrom(items).Some? && !last.Dict? ==> SegmentsFrom(items + [last]) == SegmentsFrom(items)
    ensures SegmentsFrom(items).Some? && last.Dict? && SegmentFrom(last.entries).Some? ==>
      SegmentsFrom(items + [last]) == Some(SegmentsFrom(items).value + [SegmentFrom(last.entries).value])
    ensures SegmentsFrom(items).Some? && last.Dict? && SegmentFrom(last.entries).None? ==>
      SegmentsFrom(items + [last]).None?
  {
    assert (items + [last])[..|items|] == items;
  }

  /** What is read back: nothing gives the empty message, a string one text segment, a
      dictionary with the special key the segments of the list under it, or the
      empty message when something else without elements to read is there. */
  lemma MessageSays(s: string, entries: seq<Entry>)
    ensures MessageFromPlain(Nil) == Some(Message([]))
    ensures MessageFromPlain(Text(s)) == Some(Message([Segment("text", Dict([Entry(Name("text"), Text(s))]))]))
    ensures var at, r := Field(entries, "__message__"), MessageFromPlain(Dict(entries));
      && (at == None ==> r == None)
      && (at.Some? && (at.value.Nil? || at.value.Text? || at.value.Dict?) ==> r == Some(Message([])))
      && (at.Some? && at.value.List? ==>
            if SegmentsFrom(at.value.items).None? then r == None
            else r == Some(Message(SegmentsFrom(at.value.items).value)))
      && (at.Some? && at.value.Scalar? ==> r == None)
  {
  }
}
