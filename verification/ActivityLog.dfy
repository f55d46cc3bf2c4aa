/** The activity log of `src/lib/activityLog.ts`: events kept as one JSON text, merged by id. */
module ActivityLog {
  import opened Text
  import opened Json
  import opened Sorting
  import Keyed

  datatype Action = FormCreated | FormPublished | FormUpdated | FormArchived

  datatype Role = Owner | Admin | Unknown

  datatype Event = Event(
    id: Text,
    formId: Text,
    title: Text,
    actorAddress: Text,
    actorRole: Role,
    action: Action,
    createdAt: Text,
    txDigest: Option<Text>)

  const ID: Event -> Text := (e: Event) => e.id

  const ID_KEY: Text := Ascii("id")
  const FORM_ID: Text := Ascii("formId")
  const TITLE: Text := Ascii("formTitleSnapshot")
  const ACTOR_ADDRESS: Text := Ascii("actorAddress")
  const ACTOR_ROLE: Text := Ascii("actorRole")
  const ACTION: Text := Ascii("action")
  const CREATED_AT: Text := Ascii("createdAt")
  const TX_DIGEST: Text := Ascii("txDigest")

  const UNTITLED: Text := Ascii("Untitled signal")

  // ---------- Reading and writing one event ----------

  function ActionText(a: Action): Text {
    match a
    case FormCreated => Ascii("form_created")
    case FormPublished => Ascii("form_published")
    case FormUpdated => Ascii("form_updated")
    case FormArchived => Ascii("form_archived")
  }

  function ReadAction(v: Value): Option<Action> {
    if v == Str(ActionText(FormCreated)) then Some(FormCreated)
    else if v == Str(ActionText(FormPublished)) then Some(FormPublished)
    else if v == Str(ActionText(FormUpdated)) then Some(FormUpdated)
    else if v == Str(ActionText(FormArchived)) then Some(FormArchived)
    else None
  }

  function RoleText(r: Role): Text {
    match r
    case Owner => Ascii("owner")
    case Admin => Ascii("admin")
    case Unknown => Ascii("unknown")
  }

  function ReadRole(v: Value): Role {
    if v == Str(RoleText(Owner)) then Owner else if v == Str(RoleText(Admin)) then Admin else Unknown
  }

  function TextOr(v: Value, fallback: Text): Text {
    if v.Str? then v.s else fallback
  }

  /** What `normalizeActivityEvent` accepts, and all that it returns. */
  predicate Valid(e: Event) {
    && e.id != [] && e.formId != [] && e.createdAt != []
    && (e.txDigest.Some? ==> Trim(e.txDigest.value) != [])
  }

  function Normalize(raw: Value): (r: Option<Event>)
    ensures r.Some? ==> Valid(r.value)
  {
    var id := TextOr(Field(raw, ID_KEY), []);
    var formId := TextOr(Field(raw, FORM_ID), []);
    var createdAt := TextOr(Field(raw, CREATED_AT), []);
    var action := ReadAction(Field(raw, ACTION));
    if id == [] || formId == [] || createdAt == [] || action.None? then None
    else
      var digest := Field(raw, TX_DIGEST);
      Some(Event(id, formId,
                 TextOr(Field(raw, TITLE), UNTITLED),
                 TextOr(Field(raw, ACTOR_ADDRESS), []),
                 ReadRole(Field(raw, ACTOR_ROLE)),
                 action.value,
                 createdAt,
                 if digest.Str? && Trim(digest.s) != [] then Some(digest.s) else None))
  }

  predicate TextField(raw: Value, key: Text) {
    Field(raw, key).Str? && Field(raw, key).s != []
  }

  /** An event counts exactly when it has an id, a form, a time and one of the four actions. */
  lemma AcceptedExactly(raw: Value)
    ensures Normalize(raw).Some? <==>
              && TextField(raw, Ascii("id")) && TextField(raw, Ascii("formId")) && TextField(raw, Ascii("createdAt"))
              && (var a := Field(raw, Ascii("action"));
                  || a == Str(Ascii("form_created")) || a == Str(Ascii("form_published"))
                  || a == Str(Ascii("form_updated")) || a == Str(Ascii("form_archived")))
  {
  }

  /** What an accepted event shows where its optional fields are absent or of another kind. */
  lemma DefaultsExactly(raw: Value)
    requires Normalize(raw).Some?
    ensures var e := Normalize(raw).value;
            && Field(raw, ID_KEY) == Str(e.id) && Field(raw, FORM_ID) == Str(e.formId) && Field(raw, CREATED_AT) == Str(e.createdAt)
            && (!Field(raw, TITLE).Str? ==> e.title == Ascii("Untitled signal"))
            && (!Field(raw, ACTOR_ADDRESS).Str? ==> e.actorAddress == [])
            && (Field(raw, ACTOR_ROLE) != Str(Ascii("owner")) && Field(raw, ACTOR_ROLE) != Str(Ascii("admin")) ==> e.actorRole == Unknown)
            && (!Field(raw, TX_DIGEST).Str? ==> e.txDigest == None)
  {
  }

  function EventMembers(e: Event): seq<Member> {
    [Member(ID_KEY, Str(e.id)),
     Member(FORM_ID, Str(e.formId)),
     Member(TITLE, Str(e.title)),
     Member(ACTOR_ADDRESS, Str(e.actorAddress)),
     Member(ACTOR_ROLE, Str(RoleText(e.actorRole))),
     Member(ACTION, Str(ActionText(e.action))),
     Member(CREATED_AT, Str(e.createdAt)),
     Member(TX_DIGEST, if e.txDigest.Some? then Str(e.txDigest.value) else Undefined)]
  }

  /** An event as the object that is given to `JSON.stringify`. */
  function Encode(e: Event): Value {
    Obj(EventMembers(e))
  }

  function Mark(t: Text): (int, int) {
    (|t|, if t == [] then 0 else t[0])
  }

  lemma EventKeysDistinct(e: Event)
    ensures DistinctKeys(EventMembers(e)) && WellFormed(Encode(e))
  {
    var ms := EventMembers(e);
    assert Mark(ms[0].key) == (2, 'i' as int);
    assert Mark(ms[1].key) == (6, 'f' as int);
    assert Mark(ms[2].key) == (17, 'f' as int);
    assert Mark(ms[3].key) == (12, 'a' as int);
    assert Mark(ms[4].key) == (9, 'a' as int);
    assert Mark(ms[5].key) == (6, 'a' as int);
    assert Mark(ms[6].key) == (9, 'c' as int);
    assert Mark(ms[7].key) == (8, 't' as int);
    assert DistinctKeys(ms);
  }

  lemma CodesRead(e: Event)
    ensures ReadAction(Str(ActionText(e.action))) == Some(e.action)
    ensures ReadRole(Str(RoleText(e.actorRole))) == e.actorRole
  {
    assert |ActionText(FormCreated)| == 12 && |ActionText(FormPublished)| == 14;
    assert |ActionText(FormUpdated)| == 12 && |ActionText(FormArchived)| == 13;
    assert ActionText(FormCreated)[5] == 'c' as int && ActionText(FormUpdated)[5] == 'u' as int;
    assert |RoleText(Owner)| == 5 && |RoleText(Admin)| == 5 && |RoleText(Unknown)| == 7;
    assert RoleText(Owner)[0] == 'o' as int && RoleText(Admin)[0] == 'a' as int;
  }

  /** Reading a value back gives the fields of an event. */
  ghost predicate Holds(v: Value, e: Event) {
    && Field(v, ID_KEY) == Str(e.id)
    && Field(v, FORM_ID) == Str(e.formId)
    && Field(v, TITLE) == Str(e.title)
    && Field(v, ACTOR_ADDRESS) == Str(e.actorAddress)
    && Field(v, ACTOR_ROLE) == Str(RoleText(e.actorRole))
    && Field(v, ACTION) == Str(ActionText(e.action))
    && Field(v, CREATED_AT) == Str(e.createdAt)
    && Field(v, TX_DIGEST) == if e.txDigest.Some? then Str(e.txDigest.value) else Undefined
  }

  /** One field of an encoded event, read before or after a trip through the text. */
  lemma EncodedField(e: Event, ms: seq<Member>, i: nat)
    requires ms == EventMembers(e) && i < 8
    ensures Field(Obj(ms), ms[i].key) == ms[i].value
    ensures Field(Strip(Obj(ms)), ms[i].key) == ms[i].value
  {
    EventKeysDistinct(e);
    FindAt(ms, i);
    FindStripped(ms, ms[i].key);
  }

  lemma EncodedHolds(e: Event)
    ensures Holds(Encode(e), e) && Holds(Strip(Encode(e)), e)
  {
    var ms := EventMembers(e);
    EncodedField(e, ms, 0);
    EncodedField(e, ms, 1);
    EncodedField(e, ms, 2);
    EncodedField(e, ms, 3);
    EncodedField(e, ms, 4);
    EncodedField(e, ms, 5);
    EncodedField(e, ms, 6);
    EncodedField(e, ms, 7);
  }

  lemma HoldsNormalizes(v: Value, e: Event)
    requires Holds(v, e) && Valid(e)
    ensures Normalize(v) == Some(e)
  {
    CodesRead(e);
  }

  /** Normalising an encoded event gives the event back, also after printing and parsing it. */
  lemma NormalizeReadsBack(e: Event)
    requires Valid(e)
    ensures Normalize(Encode(e)) == Some(e) && Normalize(Strip(Encode(e))) == Some(e)
  {
    EncodedHolds(e);
    HoldsNormalizes(Encode(e), e);
    HoldsNormalizes(Strip(Encode(e)), e);
  }

  // ---------- Lists of events ----------

  function EventOf(raw: Value): (r: seq<Event>)
    ensures forall e :: e in r ==> Valid(e)
  {
    var e := Normalize(raw);
    if e.Some? then [e.value] else []
  }

  lemma {:induction false} EventsValid(raws: seq<Value>)
    ensures forall e :: e in FlatMap(EventOf, raws) ==> Valid(e)
  {
    if raws == [] {
    } else {
      EventsValid(raws[1..]);
    }
  }

  /** `.map(normalizeActivityEvent).filter(Boolean)`. */
  function Events(raws: seq<Value>): (r: seq<Event>)
    ensures forall i :: 0 <= i < |r| ==> Valid(r[i])
  {
    EventsValid(raws);
    FlatMap(EventOf, raws)
  }

  function EncodeAll(es: seq<Event>): (r: seq<Value>)
    ensures |r| == |es| && forall i :: 0 <= i < |es| ==> r[i] == Encode(es[i])
  {
    seq(|es|, i requires 0 <= i < |es| => Encode(es[i]))
  }

  lemma EventsConcat(a: seq<Value>, b: seq<Value>)
    ensures Events(a + b) == Events(a) + Events(b)
  {
    FlatMapConcat(EventOf, a, b);
  }

  lemma {:induction false} EventsReadBack(es: seq<Event>, raws: seq<Value>)
    requires forall i :: 0 <= i < |es| ==> Valid(es[i])
    requires |raws| == |es|
    requires forall i :: 0 <= i < |es| ==> raws[i] == Encode(es[i]) || raws[i] == Strip(Encode(es[i]))
    ensures Events(raws) == es
  {
    if es == [] {
    } else {
      EventsReadBack(es[1..], raws[1..]);
      NormalizeReadsBack(es[0]);
    }
  }

  lemma {:induction false} StripEach(items: seq<Value>)
    ensures |StripItems(items)| == |items|
    ensures forall i :: 0 <= i < |items| ==> StripItems(items)[i] == Strip(items[i])
  {
    if items == [] {
    } else {
      StripEach(items[1..]);
    }
  }

  // ---------- Merging ----------

  /** `Map.prototype.set`: a known id keeps its place and gets the new event. */
  function Put(s: seq<Event>, e: Event): seq<Event> {
    if Keyed.Find(ID, s, e.id).Some? then Keyed.Replace(ID, s, e) else s + [e]
  }

  /** The values of the map after all events are set, in insertion order. */
  function Collect(es: seq<Event>): seq<Event> {
    if es == [] then [] else Put(Collect(es[..|es| - 1]), es[|es| - 1])
  }

  /** The last of the events with this id. */
  function LastGiven(es: seq<Event>, id: Text): Option<Event> {
    if es == [] then None
    else if es[|es| - 1].id == id then Some(es[|es| - 1])
    else LastGiven(es[..|es| - 1], id)
  }

  const TIME: Event -> Text := (x: Event) => x.createdAt

  function Newest(later: (Text, Text) -> bool): (Event, Event) -> bool {
    OrderBy(later, TIME)
  }

  function Merged(later: (Text, Text) -> bool, es: seq<Event>): seq<Event> {
    Sort(Newest(later), Collect(es))
  }

  lemma PutUnique(s: seq<Event>, e: Event)
    requires Keyed.Unique(ID, s)
    ensures Keyed.Unique(ID, Put(s, e))
    ensures forall x :: x in Put(s, e) ==> x == e || x in s
  {
    if Keyed.Find(ID, s, e.id).Some? {
      Keyed.UniqueReplace(ID, s, e);
    }
  }

  lemma PutFinds(s: seq<Event>, e: Event, id: Text)
    ensures Keyed.Find(ID, Put(s, e), id) == if id == e.id then Some(e) else Keyed.Find(ID, s, id)
  {
    Keyed.FindReplace(ID, s, e, id);
    Keyed.FindAppend(ID, s, e, id);
  }

  lemma {:induction false} CollectFinds(es: seq<Event>)
    ensures Keyed.Unique(ID, Collect(es))
    ensures forall id :: Keyed.Find(ID, Collect(es), id) == LastGiven(es, id)
    ensures forall x :: x in Collect(es) ==> x in es
  {
    if es == [] {
    } else {
      var init, last := es[..|es| - 1], es[|es| - 1];
      CollectFinds(init);
      PutUnique(Collect(init), last);
      forall id {
        PutFinds(Collect(init), last, id);
      }
    }
  }

  /** Every id once, with the event given last for it, newest first. */
  ghost predicate Merges(later: (Text, Text) -> bool, es: seq<Event>, r: seq<Event>) {
    && Keyed.Unique(ID, r)
    && (forall id :: Keyed.Find(ID, r, id) == LastGiven(es, id))
    && (forall i, j :: 0 <= i < j < |r| ==> later(r[i].createdAt, r[j].createdAt))
  }

  lemma MergeExact(later: (Text, Text) -> bool, es: seq<Event>)
    requires TotalPreorder(later)
    ensures Merges(later, es, Merged(later, es))
    ensures forall x :: x in Merged(later, es) ==> x in es
  {
    CollectFinds(es);
    Keyed.SortUnique(Newest(later), ID, Collect(es));
    OrderByPreorder(later, TIME);
    SortSorts(Newest(later), Collect(es));
  }

  function Flat(groups: seq<seq<Value>>): seq<Value> {
    if groups == [] then [] else groups[0] + Flat(groups[1..])
  }

  lemma EventsStep(raws: seq<Value>, i: nat)
    requires i < |raws|
    ensures var e := Normalize(raws[i]);
            Events(raws[..i + 1]) == if e.Some? then Events(raws[..i]) + [e.value] else Events(raws[..i])
  {
    EventsConcat(raws[..i], [raws[i]]);
    FlatMapOne(EventOf, raws[i]);
    assert raws[..i + 1] == raws[..i] + [raws[i]];
  }

  lemma CollectStep(es: seq<Event>, e: Event)
    ensures Collect(es + [e]) == Put(Collect(es), e)
  {
    assert (es + [e])[..|es + [e]| - 1] == es;
  }

  /** One round of the merging loop. */
  lemma MergeStep(raws: seq<Value>, i: nat, normalized: Option<Event>)
    requires i < |raws| && normalized == Normalize(raws[i])
    ensures var done := Collect(Events(raws[..i]));
            Collect(Events(raws[..i + 1])) == if normalized.Some? then Put(done, normalized.value) else done
  {
    EventsStep(raws, i);
    var es := Events(raws[..i]);
    if normalized.Some? {
      assert Events(raws[..i + 1]) == es + [normalized.value];
      CollectStep(es, normalized.value);
    }
  }

  method MergeActivityEvents(later: (Text, Text) -> bool, groups: seq<seq<Value>>) returns (r: seq<Event>)
    requires TotalPreorder(later)
    ensures Merges(later, Events(Flat(groups)), r)
    ensures r == Merged(later, Events(Flat(groups)))
  {
    var flat := Flat(groups);
    var nextById: seq<Event> := [];
    var i := 0;
    while i < |flat|
      invariant 0 <= i <= |flat|
      invariant nextById == Collect(Events(flat[..i]))
    {
      var normalized := Normalize(flat[i]);
      MergeStep(flat, i, normalized);
      if normalized.Some? {
        nextById := Put(nextById, normalized.value);
      }
      i := i + 1;
    }
    assert flat[..i] == flat;
    MergeExact(later, Events(flat));
    r := Sort(Newest(later), nextById);
  }

  // ---------- The stored log ----------

  /** `readJson`: no text and text that does not parse read as no events; a value with no `map` throws. */
  function Read(stored: Option<Text>): Option<seq<Value>> {
    if stored.None? || stored.value == [] then Some([])
    else
      match Decode(stored.value)
      case None => Some([])
      case Some(Arr(items)) => Some(items)
      case Some(_) => None
  }

  function Listed(later: (Text, Text) -> bool, stored: Option<Text>): Option<seq<Event>> {
    match Read(stored)
    case None => None
    case Some(items) => Some(Sort(Newest(later), Events(items)))
  }

  function Written(es: seq<Event>): Text {
    Stringify(Arr(EncodeAll(es)))
  }

  /** The stored text after `appendActivityEvents`; nothing is written when listing throws. */
  function Append(later: (Text, Text) -> bool, stored: Option<Text>, events: seq<Value>): Option<Text> {
    if events == [] then stored
    else
      match Listed(later, stored)
      case None => stored
      case Some(prior) => Some(Written(Merged(later, Events(events) + prior)))
  }

  lemma EncodedWellFormed(es: seq<Event>)
    ensures WellFormed(Arr(EncodeAll(es)))
  {
    forall i | 0 <= i < |es| ensures WellFormed(EncodeAll(es)[i]) {
      EventKeysDistinct(es[i]);
    }
  }

  /** A written list in newest-first order is listed again as it was. */
  lemma WrittenIsListed(later: (Text, Text) -> bool, es: seq<Event>)
    requires forall i :: 0 <= i < |es| ==> Valid(es[i])
    requires Sorted(Newest(later), es)
    ensures Listed(later, Some(Written(es))) == Some(es)
  {
    EncodedWellFormed(es);
    StringifyRoundTrip(Arr(EncodeAll(es)));
    StripEach(EncodeAll(es));
    EventsReadBack(es, StripItems(EncodeAll(es)));
    SortedFixed(Newest(later), es);
    assert Written(es) != [];
  }

  lemma {:induction false} LastGivenConcat(a: seq<Event>, b: seq<Event>, id: Text)
    ensures LastGiven(a + b, id) == if LastGiven(b, id).Some? then LastGiven(b, id) else LastGiven(a, id)
  {
    if b == [] {
      assert a + b == a;
    } else {
      LastGivenConcat(a, b[..|b| - 1], id);
      assert (a + b)[..|a + b| - 1] == a + b[..|b| - 1];
    }
  }

  lemma {:induction false} LastGivenUnique(es: seq<Event>, id: Text)
    requires Keyed.Unique(ID, es)
    ensures LastGiven(es, id) == Keyed.Find(ID, es, id)
  {
    if es == [] {
    } else {
      var init, last := es[..|es| - 1], es[|es| - 1];
      LastGivenUnique(init, id);
      Keyed.FindAppend(ID, init, last, id);
      assert es == init + [last];
    }
  }

  /** A log that lists every id once, newest first, and lists `found(id)` for each. */
  ghost predicate Lists(later: (Text, Text) -> bool, stored: Option<Text>, es: seq<Event>) {
    Listed(later, stored) == Some(es) && Keyed.Unique(ID, es) && Sorted(Newest(later), es)
  }

  /** What merging new events with a stored list gives for each id. */
  lemma StoredWins(later: (Text, Text) -> bool, added: seq<Event>, prior: seq<Event>, id: Text)
    requires TotalPreorder(later) && Keyed.Unique(ID, prior)
    ensures Keyed.Find(ID, Merged(later, added + prior), id) ==
            var was := Keyed.Find(ID, prior, id); if was.Some? then was else LastGiven(added, id)
  {
    MergeExact(later, added + prior);
    LastGivenConcat(added, prior, id);
    LastGivenUnique(prior, id);
  }

  lemma MergedIsListed(later: (Text, Text) -> bool, all: seq<Event>)
    requires TotalPreorder(later) && forall e :: e in all ==> Valid(e)
    ensures Lists(later, Some(Written(Merged(later, all))), Merged(later, all))
  {
    MergeExact(later, all);
    WrittenIsListed(later, Merged(later, all));
  }

  /** Appending adds new ids with the event given last; an event that is stored already stays as it is. */
  lemma AppendExact(later: (Text, Text) -> bool, stored: Option<Text>, events: seq<Value>, prior: seq<Event>)
    returns (es: seq<Event>)
    requires TotalPreorder(later) && Lists(later, stored, prior)
    ensures Lists(later, Append(later, stored, events), es)
    ensures forall id :: Keyed.Find(ID, es, id) ==
              var was := Keyed.Find(ID, prior, id); if was.Some? then was else LastGiven(Events(events), id)
  {
    if events == [] {
      return prior;
    }
    var added := Events(events);
    es := Merged(later, added + prior);
    ListedValid(later, stored);
    MergedIsListed(later, added + prior);
    forall id ensures Keyed.Find(ID, es, id) ==
                var was := Keyed.Find(ID, prior, id); if was.Some? then was else LastGiven(added, id) {
      StoredWins(later, added, prior, id);
    }
  }

  lemma ListedValid(later: (Text, Text) -> bool, stored: Option<Text>)
    requires TotalPreorder(later) && Listed(later, stored).Some?
    ensures forall e :: e in Listed(later, stored).value ==> Valid(e)
  {
    OrderByPreorder(later, TIME);
    SortSameElements(Newest(later), Events(Read(stored).value));
  }

  // ---------- Runs ----------

  /** The stored text after a run of appends to an empty log. */
  function Run(later: (Text, Text) -> bool, batches: seq<seq<Value>>): Option<Text> {
    if batches == [] then None
    else Append(later, Run(later, batches[..|batches| - 1]), batches[|batches| - 1])
  }

  /** The event that the first batch with this id gives it. */
  function FirstStored(batches: seq<seq<Value>>, id: Text): Option<Event> {
    if batches == [] then None
    else
      var was := FirstStored(batches[..|batches| - 1], id);
      if was.Some? then was else LastGiven(Events(batches[|batches| - 1]), id)
  }

  /** After any run the log lists exactly the events first stored for each id, once each, newest first. */
  lemma {:induction false} RunListsFirstStored(later: (Text, Text) -> bool, batches: seq<seq<Value>>) returns (es: seq<Event>)
    requires TotalPreorder(later)
    ensures Lists(later, Run(later, batches), es)
    ensures forall id :: Keyed.Find(ID, es, id) == FirstStored(batches, id)
  {
    if batches == [] {
      return [];
    }
    var prior := RunListsFirstStored(later, batches[..|batches| - 1]);
    es := AppendExact(later, Run(later, batches[..|batches| - 1]), batches[|batches| - 1], prior);
  }

  lemma {:induction false} FindMember(es: seq<Event>, e: Event)
    requires Keyed.Unique(ID, es) && e in es
    ensures Keyed.Find(ID, es, e.id) == Some(e)
  {
    if es[0] != e {
      FindMember(es[1..], e);
    }
  }

  predicate Shows(later: (Text, Text) -> bool, stored: Option<Text>, e: Event) {
    var listed := Listed(later, stored);
    listed.Some? && e in listed.value
  }

  lemma AppendShows(later: (Text, Text) -> bool, batches: seq<seq<Value>>, last: seq<Value>, e: Event)
    requires TotalPreorder(later)
    ensures Shows(later, Run(later, batches), e) ==> Shows(later, Append(later, Run(later, batches), last), e)
  {
    var prior := RunListsFirstStored(later, batches);
    var es := AppendExact(later, Run(later, batches), last, prior);
    if e in prior {
      FindMember(prior, e);
      assert Keyed.Find(ID, es, e.id) == Some(e);
    }
  }

  /** Stored events are never changed or lost by what is appended later. */
  lemma {:induction false} StoredStays(later: (Text, Text) -> bool, batches: seq<seq<Value>>, more: seq<seq<Value>>, e: Event)
    requires TotalPreorder(later)
    ensures Shows(later, Run(later, batches), e) ==> Shows(later, Run(later, batches + more), e)
  {
    if more == [] {
      assert batches + more == batches;
    } else {
      var init := batches + more[..|more| - 1];
      StoredStays(later, batches, more[..|more| - 1], e);
      AppendShows(later, init, more[|more| - 1], e);
      assert (batches + more)[..|batches + more| - 1] == init;
    }
  }

  // ---------- The log as an object ----------

  class Log {
    const later: (Text, Text) -> bool
    var stored: Option<Text>

    constructor (later: (Text, Text) -> bool)
      ensures stored == None && this.later == later
    {
      this.later := later;
      stored := None;
    }

    /** `None` when the stored value has no `map`. */
    method ListActivityEvents() returns (r: Option<seq<Event>>)
      requires TotalPreorder(later)
      ensures r == Listed(later, stored)
      ensures r.Some? ==> forall i, j :: 0 <= i < j < |r.value| ==> later(r.value[i].createdAt, r.value[j].createdAt)
    {
      var raw := Read(stored);
      if raw.None? {
        return None;
      }
      OrderByPreorder(later, TIME);
      SortSorts(Newest(later), Events(raw.value));
      r := Some(Sort(Newest(later), Events(raw.value)));
    }

    method AppendActivityEvents(events: seq<Value>)
      requires TotalPreorder(later)
      modifies this
      ensures stored == Append(later, old(stored), events)
    {
      if |events| == 0 {
        return;
      }
      var listed := ListActivityEvents();
      if listed.Some? {
        var merged := MergeActivityEvents(later, [events, EncodeAll(listed.value)]);
        assert Events(Flat([events, EncodeAll(listed.value)])) == Events(events) + listed.value by {
          FlatPair(events, EncodeAll(listed.value));
          EventsConcat(events, EncodeAll(listed.value));
          ListedValid(later, stored);
          EventsReadBack(listed.value, EncodeAll(listed.value));
        }
        stored := Some(Written(merged));
      }
    }
  }

  lemma FlatPair(a: seq<Value>, b: seq<Value>)
    ensures Flat([a, b]) == a + b
  {
    assert [a, b][1..] == [b];
    assert [b][1..] == [] && Flat([b]) == b + [];
  }
}
