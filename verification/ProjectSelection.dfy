/** How the dashboard finds the selected project in localStorage. */
module ProjectSelection {
  import opened Text
  import opened Hex
  import Json
  import Seal

  datatype Source = UnknownSource | LegacySelected | NamespacedSelected | RecentProjects | NoneConfirmed

  /** One localStorage item. */
  datatype Item = Item(key: Text, value: Text)

  /** localStorage when it is read; reading may throw. */
  datatype Storage = Unreadable(message: Text) | Readable(items: seq<Item>)

  const SELECTED_PROJECT_ID_KEY: Text := Ascii("deepsignal.projectRegistry.selectedProjectId")
  const RECENT_PROJECTS_KEY: Text := Ascii("deepsignal.projectRegistry.recentProjects")
  const SELECTED_PREFIX: Text := SELECTED_PROJECT_ID_KEY + [58]
  const RECENT_PREFIX: Text := RECENT_PROJECTS_KEY + [58]
  const OBJECT_ID: Text := Ascii("objectId")
  const NULL_WORD: Text := Ascii("null")
  const UNDEFINED_WORD: Text := Ascii("undefined")

  // ---------- Reading one value ----------

  /** `normalizeObjectId` */
  function NormalizeObjectId(value: Text): Text {
    var trimmed := Lower(Trim(value));
    if trimmed == [] || trimmed == NULL_WORD || trimmed == UNDEFINED_WORD then []
    else if StartsWith(trimmed, PREFIX) then trimmed
    else PREFIX + trimmed
  }

  /** The `objectId` of the first entry that is an object with one. */
  function FirstObjectId(entries: seq<Json.Value>): Json.Value {
    if entries == [] then Json.Undefined
    else
      var id := Json.Field(entries[0], OBJECT_ID);
      if id.Undefined? then FirstObjectId(entries[1..]) else id
  }

  /** What a parsed list of recent projects comes to; an id that is no text makes the reader throw and catch. */
  function IdInList(parsed: Option<Json.Value>): Text {
    if parsed.Some? && parsed.value.Arr? then
      var id := FirstObjectId(parsed.value.items);
      if id.Str? then NormalizeObjectId(id.s) else []
    else []
  }

  /** The id in a stored list of recent projects, none for text that does not parse. */
  function RecentObjectId(value: Text): Text {
    if value == [] then [] else IdInList(Json.Decode(value))
  }

  // ---------- Finding a value ----------

  function GetItem(items: seq<Item>, key: Text): Text {
    if items == [] then [] else if items[0].key == key then items[0].value else GetItem(items[1..], key)
  }

  /** `readNamespacedStorageValue`: the first non-empty value whose key has the prefix, or the empty text. */
  function NamespacedValue(items: seq<Item>, prefix: Text): Text {
    if items == [] then []
    else if StartsWith(items[0].key, prefix) && items[0].value != [] then items[0].value
    else NamespacedValue(items[1..], prefix)
  }

  /** An item is found by its key: the first one that has it. */
  lemma {:induction false} ItemFound(items: seq<Item>, key: Text, k: nat)
    requires k <= |items| && forall j :: 0 <= j < k ==> items[j].key != key
    ensures k < |items| && items[k].key == key ==> GetItem(items, key) == items[k].value
    ensures k == |items| ==> GetItem(items, key) == []
  {
    if k > 0 {
      ItemFound(items[1..], key, k - 1);
    }
  }

  predicate Offers(item: Item, prefix: Text) {
    StartsWith(item.key, prefix) && item.value != []
  }

  /** The value under a prefix is that of the first item with the prefix and a value. */
  lemma {:induction false} ValueFound(items: seq<Item>, prefix: Text, k: nat)
    requires k <= |items| && forall j :: 0 <= j < k ==> !Offers(items[j], prefix)
    ensures k < |items| && Offers(items[k], prefix) ==> NamespacedValue(items, prefix) == items[k].value
    ensures k == |items| ==> NamespacedValue(items, prefix) == []
  {
    if k > 0 {
      ValueFound(items[1..], prefix, k - 1);
    }
  }

  function LegacyId(items: seq<Item>): Text {
    NormalizeObjectId(GetItem(items, SELECTED_PROJECT_ID_KEY))
  }

  function NamespacedId(items: seq<Item>): Text {
    NormalizeObjectId(NamespacedValue(items, SELECTED_PREFIX))
  }

  function RecentId(items: seq<Item>): Text {
    RecentObjectId(NamespacedValue(items, RECENT_PREFIX))
  }

  datatype Selection = Selection(currentProjectId: Text, source: Source)

  /** What a refresh gets from localStorage. */
  datatype Reading = Failed(message: Text) | Selected(selection: Selection)

  /** `readRecentProjectSelection` */
  function ReadRecent(items: seq<Item>): Selection {
    if NamespacedValue(items, RECENT_PREFIX) == [] then Selection([], UnknownSource)
    else Selection(RecentId(items), RecentProjects)
  }

  function Choose(legacy: Text, namespaced: Text, recent: Selection): Selection {
    if legacy != [] then Selection(legacy, LegacySelected)
    else if namespaced != [] then Selection(namespaced, NamespacedSelected)
    else recent
  }

  /** `readProjectSelectionSnapshot` */
  function Read(storage: Storage): Reading {
    match storage
    case Unreadable(message) => Failed(message)
    case Readable(items) => Selected(Choose(LegacyId(items), NamespacedId(items), ReadRecent(items)))
  }

  // ---------- The first id that can be used ----------

  function FirstNonEmpty(ids: seq<Text>): Text {
    if ids == [] then [] else if ids[0] != [] then ids[0] else FirstNonEmpty(ids[1..])
  }

  /** The ids of all items with the prefix, in order; the empty text for a value without one. */
  function NamespacedIds(items: seq<Item>, prefix: Text, read: Text -> Text): seq<Text> {
    if items == [] then []
    else
      (if StartsWith(items[0].key, prefix) then [read(items[0].value)] else []) + NamespacedIds(items[1..], prefix, read)
  }

  /** Every id the storage offers, best first: the legacy one, the namespaced ones, the recent ones. */
  function AllIds(items: seq<Item>): seq<Text> {
    [LegacyId(items)] + NamespacedIds(items, SELECTED_PREFIX, NormalizeObjectId)
    + NamespacedIds(items, RECENT_PREFIX, RecentObjectId)
  }

  /** The value that is read comes to no id, though another item with the prefix has one. */
  predicate Hides(items: seq<Item>, prefix: Text, read: Text -> Text) {
    read(NamespacedValue(items, prefix)) == [] && exists id :: id in NamespacedIds(items, prefix, read) && id != []
  }

  lemma {:induction false} FirstNonEmptyIs(ids: seq<Text>)
    ensures FirstNonEmpty(ids) == [] <==> forall id :: id in ids ==> id == []
    ensures FirstNonEmpty(ids) != [] ==> FirstNonEmpty(ids) in ids
  {
    if ids == [] {
    } else {
      FirstNonEmptyIs(ids[1..]);
      assert ids == [ids[0]] + ids[1..];
      assert ids[0] in ids && forall id :: id in ids[1..] ==> id in ids;
    }
  }

  lemma {:induction false} FirstNonEmptyConcat(a: seq<Text>, b: seq<Text>)
    ensures FirstNonEmpty(a + b) == if FirstNonEmpty(a) != [] then FirstNonEmpty(a) else FirstNonEmpty(b)
  {
    if a == [] {
      assert a + b == b;
    } else {
      FirstNonEmptyConcat(a[1..], b);
      assert (a + b)[1..] == a[1..] + b;
    }
  }

  /** An id that is read from the first non-empty value is the first of all ids there. */
  lemma {:induction false} PickedIsFirst(items: seq<Item>, prefix: Text, read: Text -> Text)
    requires read([]) == []
    ensures var picked := read(NamespacedValue(items, prefix));
            picked != [] ==> FirstNonEmpty(NamespacedIds(items, prefix, read)) == picked
  {
    if items == [] {
    } else {
      PickedIsFirst(items[1..], prefix, read);
      var rest := NamespacedIds(items[1..], prefix, read);
      if StartsWith(items[0].key, prefix) {
        assert ([read(items[0].value)] + rest)[1..] == rest;
      } else {
        assert [] + rest == rest;
      }
    }
  }

  /** Reading only the first non-empty value finds the first id exactly when that value does not hide another's. */
  lemma PickedExactly(items: seq<Item>, prefix: Text, read: Text -> Text)
    requires read([]) == []
    ensures read(NamespacedValue(items, prefix)) == FirstNonEmpty(NamespacedIds(items, prefix, read))
            <==> !Hides(items, prefix, read)
  {
    PickedIsFirst(items, prefix, read);
    FirstNonEmptyIs(NamespacedIds(items, prefix, read));
  }

  lemma EmptyReadsEmpty()
    ensures NormalizeObjectId([]) == [] && RecentObjectId([]) == []
  {
  }

  lemma NamespacedExactly(items: seq<Item>)
    ensures NamespacedId(items) == FirstNonEmpty(NamespacedIds(items, SELECTED_PREFIX, NormalizeObjectId))
            <==> !Hides(items, SELECTED_PREFIX, NormalizeObjectId)
  {
    EmptyReadsEmpty();
    PickedExactly(items, SELECTED_PREFIX, NormalizeObjectId);
  }

  lemma RecentExactly(items: seq<Item>)
    ensures RecentId(items) == FirstNonEmpty(NamespacedIds(items, RECENT_PREFIX, RecentObjectId))
            <==> !Hides(items, RECENT_PREFIX, RecentObjectId)
  {
    EmptyReadsEmpty();
    PickedExactly(items, RECENT_PREFIX, RecentObjectId);
  }

  lemma PlainWord(word: Text)
    requires Trimmed(word) && IsLower(word)
    ensures Lower(Trim(word)) == word
  {
    TrimKeepsTrimmed(word);
    LowerKeepsLower(word);
  }

  lemma VoidWord()
    ensures NormalizeObjectId(NULL_WORD) == []
  {
    assert NULL_WORD == [110, 117, 108, 108];
    PlainWord([110, 117, 108, 108]);
  }

  lemma TwoItemIds(first: Item, second: Item, later: seq<Item>, prefix: Text, read: Text -> Text)
    requires StartsWith(first.key, prefix) && StartsWith(second.key, prefix) && first.value != []
    ensures var items := [first, second] + later;
            NamespacedValue(items, prefix) == first.value && read(second.value) in NamespacedIds(items, prefix, read)
  {
    var items := [first, second] + later;
    var tail := items[1..];
    assert items[0] == first && tail[0] == second;
    var ids := NamespacedIds(tail, prefix, read);
    assert ids[0] == read(second.value);
    assert ids[0] in [read(first.value)] + ids;
  }

  /** Some values do hide an id: the word null before any id that could be used. */
  lemma VoidNamespacedIdHidesLater(void: Item, other: Item, later: seq<Item>)
    requires StartsWith(void.key, SELECTED_PREFIX) && void.value == NULL_WORD
    requires StartsWith(other.key, SELECTED_PREFIX) && NormalizeObjectId(other.value) != []
    ensures NamespacedId([void, other] + later) == [] && Hides([void, other] + later, SELECTED_PREFIX, NormalizeObjectId)
  {
    VoidWord();
    TwoItemIds(void, other, later, SELECTED_PREFIX, NormalizeObjectId);
  }

  // ---------- What is selected ----------

  lemma AllIdsFirst(items: seq<Item>)
    ensures FirstNonEmpty(AllIds(items)) ==
            FirstNonEmpty([LegacyId(items),
                           FirstNonEmpty(NamespacedIds(items, SELECTED_PREFIX, NormalizeObjectId)),
                           FirstNonEmpty(NamespacedIds(items, RECENT_PREFIX, RecentObjectId))])
  {
    var l, n, r := LegacyId(items), NamespacedIds(items, SELECTED_PREFIX, NormalizeObjectId),
                   NamespacedIds(items, RECENT_PREFIX, RecentObjectId);
    FirstNonEmptyConcat([l] + n, r);
    FirstNonEmptyConcat([l], n);
    FirstOfThree(l, FirstNonEmpty(n), FirstNonEmpty(r));
    assert FirstNonEmpty([l]) == l by {
      FirstNonEmptyIs([l]);
      assert l in [l];
    }
  }

  lemma FirstOfThree(a: Text, b: Text, c: Text)
    ensures FirstNonEmpty([a, b, c]) == if a != [] then a else if b != [] then b else c
  {
    assert [a, b, c][1..] == [b, c] && [b, c][1..] == [c];
    assert FirstNonEmpty([c]) == c;
    assert FirstNonEmpty([b, c]) == if b != [] then b else c;
  }

  lemma RecentSelected(items: seq<Item>)
    ensures ReadRecent(items).currentProjectId == RecentId(items)
    ensures ReadRecent(items).source == if NamespacedValue(items, RECENT_PREFIX) == [] then UnknownSource else RecentProjects
  {
    EmptyReadsEmpty();
  }

  lemma FirstChosen(legacy: Text, namespaced: Text, recent: Selection)
    ensures Choose(legacy, namespaced, recent).currentProjectId ==
            FirstNonEmpty([legacy, namespaced, recent.currentProjectId])
    ensures Choose(legacy, namespaced, recent).source ==
            if legacy != [] then LegacySelected else if namespaced != [] then NamespacedSelected else recent.source
  {
    FirstOfThree(legacy, namespaced, recent.currentProjectId);
  }

  /** A readable storage selects the first non-empty of the legacy, namespaced and recent ids. */
  lemma SelectionIsFirstNonEmpty(items: seq<Item>)
    ensures Read(Readable(items)).Selected?
    ensures Read(Readable(items)).selection.currentProjectId ==
            FirstNonEmpty([LegacyId(items), NamespacedId(items), RecentId(items)])
  {
    RecentSelected(items);
    FirstChosen(LegacyId(items), NamespacedId(items), ReadRecent(items));
  }

  /**
   The selected id is the first of all ids the storage offers exactly when there is a legacy id, or
   no namespaced value hides an id and, where no namespaced id is found, no recent value does. Where a
   namespaced value hides an id, only a recent id that is the same makes up for it.
   */
  lemma SelectionExactly(items: seq<Item>)
    ensures Read(Readable(items)).selection.currentProjectId == FirstNonEmpty(AllIds(items)) <==>
              || LegacyId(items) != []
              || (if Hides(items, SELECTED_PREFIX, NormalizeObjectId) then
                    RecentId(items) == FirstNonEmpty(NamespacedIds(items, SELECTED_PREFIX, NormalizeObjectId))
                  else NamespacedId(items) != [] || !Hides(items, RECENT_PREFIX, RecentObjectId))
  {
    SelectionIsFirstNonEmpty(items);
    AllIdsFirst(items);
    NamespacedExactly(items);
    RecentExactly(items);
    var n, r := NamespacedIds(items, SELECTED_PREFIX, NormalizeObjectId), NamespacedIds(items, RECENT_PREFIX, RecentObjectId);
    FirstOfThree(LegacyId(items), NamespacedId(items), RecentId(items));
    FirstOfThree(LegacyId(items), FirstNonEmpty(n), FirstNonEmpty(r));
    FirstNonEmptyIs(n);
  }

  // ---------- The recent list, by index ----------

  /** Entry `k` is the first of a list of recent projects with an object id. */
  ghost predicate FirstWithId(entries: seq<Json.Value>, k: nat) {
    && k < |entries| && !Json.Field(entries[k], OBJECT_ID).Undefined?
    && forall j :: 0 <= j < k ==> Json.Field(entries[j], OBJECT_ID).Undefined?
  }

  lemma {:induction false} FirstObjectIdAt(entries: seq<Json.Value>, k: nat)
    requires FirstWithId(entries, k)
    ensures FirstObjectId(entries) == Json.Field(entries[k], OBJECT_ID)
  {
    if k == 0 {
    } else {
      assert Json.Field(entries[0], OBJECT_ID).Undefined?;
      FirstObjectIdAt(entries[1..], k - 1);
    }
  }

  lemma {:induction false} NoObjectId(entries: seq<Json.Value>)
    requires forall j :: 0 <= j < |entries| ==> Json.Field(entries[j], OBJECT_ID).Undefined?
    ensures FirstObjectId(entries) == Json.Undefined
  {
    if entries == [] {
    } else {
      NoObjectId(entries[1..]);
    }
  }

  lemma StoredListParses(entries: seq<Json.Value>)
    requires forall i :: 0 <= i < |entries| ==> Json.Defined(entries[i])
    ensures Json.Decode(Json.Stringify(Json.Arr(entries))) == Some(Json.Arr(entries))
    ensures Json.Stringify(Json.Arr(entries)) != []
  {
    Json.StripDefined(Json.Arr(entries));
    Json.ValueRoundTrip(Json.Arr(entries), []);
  }

  lemma ListedId(entries: seq<Json.Value>, k: nat, text: Text)
    requires FirstWithId(entries, k) && text != [] && Json.Decode(text) == Some(Json.Arr(entries))
    ensures RecentObjectId(text) ==
            var id := Json.Field(entries[k], OBJECT_ID); if id.Str? then NormalizeObjectId(id.s) else []
  {
    FirstObjectIdAt(entries, k);
  }

  lemma OneItem(item: Item, key: Text)
    ensures GetItem([item], key) == if item.key == key then item.value else []
  {
    assert GetItem([item][1..], key) == [];
  }

  lemma OneItemUnder(item: Item, prefix: Text)
    ensures NamespacedValue([item], prefix) == if StartsWith(item.key, prefix) then item.value else []
  {
    assert NamespacedValue([item][1..], prefix) == [];
  }

  lemma OnlyItem(item: Item)
    requires StartsWith(item.key, RECENT_PREFIX) && item.value != []
    ensures LegacyId([item]) == [] && NamespacedId([item]) == [] && NamespacedValue([item], RECENT_PREFIX) == item.value
  {
    KeysApart(item.key);
    EmptyReadsEmpty();
    OneItem(item, SELECTED_PROJECT_ID_KEY);
    OneItemUnder(item, SELECTED_PREFIX);
    OneItemUnder(item, RECENT_PREFIX);
  }

  lemma KeysApart(key: Text)
    requires StartsWith(key, RECENT_PREFIX)
    ensures key != SELECTED_PROJECT_ID_KEY && !StartsWith(key, SELECTED_PREFIX)
  {
    assert RECENT_PREFIX[27] == 'r' as int && SELECTED_PREFIX[27] == 's' as int;
    assert SELECTED_PROJECT_ID_KEY[27] == 's' as int;
    assert key[27] == key[..|RECENT_PREFIX|][27];
    assert |key| >= |SELECTED_PREFIX| ==> key[..|SELECTED_PREFIX|][27] == key[27];
  }

  /** With nothing stored but a list of recent projects, the id of its first entry with one is selected. */
  lemma RecentListSelects(key: Text, entries: seq<Json.Value>, k: nat)
    requires StartsWith(key, RECENT_PREFIX) && FirstWithId(entries, k)
    requires forall i :: 0 <= i < |entries| ==> Json.Defined(entries[i])
    ensures var id := Json.Field(entries[k], OBJECT_ID);
            Read(Readable([Item(key, Json.Stringify(Json.Arr(entries)))])) ==
            Selected(Selection(if id.Str? then NormalizeObjectId(id.s) else [], RecentProjects))
  {
    var text := Json.Stringify(Json.Arr(entries));
    var items := [Item(key, text)];
    StoredListParses(entries);
    ListedId(entries, k, text);
    OnlyItem(items[0]);
    RecentSelected(items);
    FirstChosen([], [], ReadRecent(items));
  }

  // ---------- Selecting what was selected ----------

  lemma NormalizedId(value: Text)
    ensures Seal.Normal(NormalizeObjectId(value))
  {
    assert NormalizeObjectId(value) == [] || NormalizeObjectId(value) == Seal.Normalize(value);
    Seal.NormalizeIsNormal(value);
  }

  lemma PrefixedIsNoWord(id: Text)
    requires id != [] ==> StartsWith(id, PREFIX)
    ensures id != NULL_WORD && id != UNDEFINED_WORD
  {
    assert NULL_WORD[0] == 'n' as int && UNDEFINED_WORD[0] == 'u' as int;
    assert id != [] ==> id[0] == PREFIX[0];
  }

  lemma NormalIdFixed(id: Text)
    requires Seal.Normal(id)
    ensures NormalizeObjectId(id) == id
  {
    PlainWord(id);
    PrefixedIsNoWord(id);
  }

  lemma ListedIdNormal(parsed: Option<Json.Value>)
    ensures Seal.Normal(IdInList(parsed))
  {
    if parsed.Some? && parsed.value.Arr? {
      var id := FirstObjectId(parsed.value.items);
      if id.Str? {
        NormalizedId(id.s);
      }
    }
  }

  lemma IdsNormal(items: seq<Item>)
    ensures Seal.Normal(LegacyId(items)) && Seal.Normal(NamespacedId(items)) && Seal.Normal(RecentId(items))
  {
    NormalizedId(GetItem(items, SELECTED_PROJECT_ID_KEY));
    NormalizedId(NamespacedValue(items, SELECTED_PREFIX));
    ListedIdNormal(Json.Decode(NamespacedValue(items, RECENT_PREFIX)));
  }

  lemma SelectedIsNormal(items: seq<Item>)
    ensures Seal.Normal(Read(Readable(items)).selection.currentProjectId)
  {
    IdsNormal(items);
    SelectionIsFirstNonEmpty(items);
    FirstOfThree(LegacyId(items), NamespacedId(items), RecentId(items));
  }

  lemma LegacyWins(id: Text, items: seq<Item>)
    requires LegacyId(items) == id != []
    ensures Read(Readable(items)) == Selected(Selection(id, LegacySelected))
  {
  }

  lemma WrittenLegacy(id: Text, others: seq<Item>)
    requires Seal.Normal(id)
    ensures LegacyId([Item(SELECTED_PROJECT_ID_KEY, id)] + others) == id
  {
    NormalIdFixed(id);
  }

  /** An id that is read is the normalised identifier, but for the words null and undefined, which are none. */
  lemma ObjectIdExactly(value: Text)
    ensures Lower(Trim(value)) == Ascii("null") || Lower(Trim(value)) == Ascii("undefined") ==> NormalizeObjectId(value) == []
    ensures Lower(Trim(value)) != Ascii("null") && Lower(Trim(value)) != Ascii("undefined") ==>
              NormalizeObjectId(value) == Seal.Normalize(value)
  {
  }

  /** The selected id, written back under the legacy key, is selected again, whatever else is stored. */
  lemma SelectionSurvivesWriting(items: seq<Item>, others: seq<Item>)
    ensures var id := Read(Readable(items)).selection.currentProjectId;
            id != [] ==>
              Read(Readable([Item(SELECTED_PROJECT_ID_KEY, id)] + others)) == Selected(Selection(id, LegacySelected))
  {
    var id := Read(Readable(items)).selection.currentProjectId;
    SelectedIsNormal(items);
    WrittenLegacy(id, others);
    if id != [] {
      LegacyWins(id, [Item(SELECTED_PROJECT_ID_KEY, id)] + others);
    }
  }
}
