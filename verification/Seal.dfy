/** Seal identifiers, policy snapshots and their comparison. */
module Seal {
  import opened Text
  import opened Json
  import opened Policy
  import opened Fnv
  import opened Hex
  import opened Sorting

  // ---------- Identifiers ----------

  /** `normalizeSealIdentifier` on text; ASCII case folding. */
  function Normalize(value: Text): Text {
    var trimmed := Lower(Trim(value));
    if trimmed == [] then []
    else if StartsWith(trimmed, PREFIX) then trimmed
    else PREFIX + trimmed
  }

  /** `normalizeOptionalSealIdentifier` */
  function NormalizeOptional(value: Option<Text>): Option<Text> {
    if value.Some? && Normalize(value.value) != [] then Some(Normalize(value.value)) else None
  }

  /** Trimmed, in lower case, and with the prefix unless empty. */
  predicate Normal(t: Text) {
    Trimmed(t) && IsLower(t) && (t != [] ==> StartsWith(t, PREFIX))
  }

  lemma NormalFixed(t: Text)
    requires Normal(t)
    ensures Normalize(t) == t
  {
    TrimKeepsTrimmed(t);
    LowerKeepsLower(t);
  }

  lemma LowerTrimmed(t: Text)
    requires Trimmed(t)
    ensures Trimmed(Lower(t)) && IsLower(Lower(t))
  {
  }

  lemma PrefixedNormal(t: Text)
    requires Trimmed(t) && IsLower(t) && t != []
    ensures Normal(PREFIX + t)
  {
    var r := PREFIX + t;
    assert r[..2] == PREFIX && r[|r| - 1] == t[|t| - 1];
    forall i | 0 <= i < |r| ensures !(0x41 <= r[i] <= 0x5A) {
      if i >= 2 {
        assert r[i] == t[i - 2];
      }
    }
  }

  lemma NormalizeIsNormal(value: Text)
    ensures Normal(Normalize(value))
  {
    LowerTrimmed(Trim(value));
    var t := Lower(Trim(value));
    if t != [] && !StartsWith(t, PREFIX) {
      PrefixedNormal(t);
    }
  }

  /** Normalising twice is normalising once. */
  lemma NormalizeIdempotent(value: Text)
    ensures Normalize(Normalize(value)) == Normalize(value)
  {
    NormalizeIsNormal(value);
    NormalFixed(Normalize(value));
  }

  lemma NormalizeOptionalIdempotent(value: Option<Text>)
    ensures NormalizeOptional(NormalizeOptional(value)) == NormalizeOptional(value)
  {
    if value.Some? {
      NormalizeIdempotent(value.value);
    }
  }

  const NOT_EMPTY: Text -> bool := (t: Text) => t != []

  /** `ids.map(normalizeSealIdentifier).filter(Boolean)` */
  function NormalizeIds(ids: seq<Text>): seq<Text> {
    Filter(NOT_EMPTY, Map(Normalize, ids))
  }

  predicate NormalIds(ids: seq<Text>) {
    forall i :: 0 <= i < |ids| ==> ids[i] != [] && Normal(ids[i])
  }

  lemma NormalizeIdsNormal(ids: seq<Text>)
    ensures NormalIds(NormalizeIds(ids))
  {
    var r := NormalizeIds(ids);
    forall i | 0 <= i < |r| ensures r[i] != [] && Normal(r[i]) {
      assert r[i] in r;
      var j :| 0 <= j < |ids| && Map(Normalize, ids)[j] == r[i];
      NormalizeIsNormal(ids[j]);
    }
  }

  lemma NormalIdsFixed(ids: seq<Text>)
    requires NormalIds(ids)
    ensures NormalizeIds(ids) == ids
  {
    forall i | 0 <= i < |ids| ensures Normalize(ids[i]) == ids[i] && NOT_EMPTY(ids[i]) {
      NormalFixed(ids[i]);
    }
    MapFixed(Normalize, ids);
    FilterAll(NOT_EMPTY, ids);
  }

  lemma NormalizeOfTrimmed(value: Text, core: Text)
    requires Trim(value) == core
    ensures Normalize(value) ==
            if core == [] then []
            else if |core| >= 2 && Lower(core)[..2] == PREFIX then Lower(core)
            else PREFIX + Lower(core)
  {
  }

  /** The small-letter text without the white space around it, with "0x" put before it unless it has that or is empty. */
  lemma NormalizeExactly(value: Text, before: Text, core: Text, after: Text)
    requires Around(IsSpace, value, before, core, after) && Trimmed(core)
    ensures Normalize(value) ==
            if core == [] then []
            else if |core| >= 2 && Lower(core)[..2] == PREFIX then Lower(core)
            else PREFIX + Lower(core)
  {
    TrimExactly(value, before, core, after);
    NormalizeOfTrimmed(value, core);
  }

  /** An id made by `toHex` is normal already. */
  lemma HexIsNormal(bytes: seq<Byte>)
    ensures Normalize(ToHex(bytes)) == ToHex(bytes) && ToHex(bytes) != []
  {
    var t := ToHex(bytes);
    HexPairsLower(bytes);
    assert t[..2] == PREFIX;
    assert forall i :: 0 <= i < |t| ==> t[i] == PREFIX[0] || t[i] == PREFIX[1] || LowerHex(t[i]) by {
      forall i | 2 <= i < |t| ensures LowerHex(t[i]) {
        assert t[i] == HexPairs(bytes)[i - 2];
      }
    }
    NormalFixed(t);
  }

  predicate LowerHex(c: CodeUnit) { 48 <= c <= 57 || 97 <= c <= 102 }

  lemma {:induction false} HexPairsLower(bytes: seq<Byte>)
    ensures forall i :: 0 <= i < |HexPairs(bytes)| ==> LowerHex(HexPairs(bytes)[i])
  {
    if bytes == [] {
    } else {
      HexPairsLower(bytes[1..]);
      PaddedLower(bytes[0], 2);
    }
  }

  lemma PaddedLower(n: nat, width: nat)
    ensures forall i :: 0 <= i < |PaddedHex(n, width)| ==> LowerHex(PaddedHex(n, width)[i])
  {
    Base16Lower(n);
    PadLower(ToBase16(n), width);
  }

  lemma {:induction false} Base16Lower(n: nat)
    ensures forall i :: 0 <= i < |ToBase16(n)| ==> LowerHex(ToBase16(n)[i])
    decreases n
  {
    if n < 16 {
    } else {
      Base16Lower(n / 16);
    }
  }

  lemma {:induction false} PadLower(t: Text, width: nat)
    requires forall i :: 0 <= i < |t| ==> LowerHex(t[i])
    ensures forall i :: 0 <= i < |PadStart(t, width)| ==> LowerHex(PadStart(t, width)[i])
    decreases width - |t|
  {
    if |t| >= width {
    } else {
      PadLower([ZERO] + t, width);
    }
  }

  // ---------- Approval policies ----------

  const PROJECT_SIGNAL: Text := Ascii("project_signal_v1")
  const PROJECT_ADMIN: Text := Ascii("project_admin_v0")
  const SIGNAL_REVIEWER: Text := Ascii("project_signal_reviewer_v1")
  const PROJECT_REVIEWER: Text := Ascii("project_reviewer_v0")
  const OWNER_WALLET: Text := Ascii("owner_wallet_v1")

  function CapabilityType(policyId: Text): Text {
    if policyId == OWNER_WALLET then Ascii("Owner wallet")
    else if policyId == SIGNAL_REVIEWER || policyId == PROJECT_REVIEWER
            || policyId == PROJECT_SIGNAL || policyId == PROJECT_ADMIN
    then Ascii("OwnerCap/AdminCap")
    else Ascii("Unknown")
  }

  /** `selectProjectSealApprovalPolicy`; a malformed id counts as no match. */
  function SelectProjectPolicy(envelopePolicy: Text, objectId: Text, projectId: Text): (r: Text)
    ensures r == PROJECT_SIGNAL || r == PROJECT_ADMIN
  {
    if envelopePolicy == PROJECT_SIGNAL || envelopePolicy == PROJECT_ADMIN then envelopePolicy
    else if envelopePolicy == SIGNAL_REVIEWER then PROJECT_SIGNAL
    else if envelopePolicy == PROJECT_REVIEWER then PROJECT_ADMIN
    else if IdMatches(objectId, projectId) == Success(true) then PROJECT_SIGNAL
    else PROJECT_ADMIN
  }

  /** A known policy is kept, the reviewer policies becoming the two that the contract knows, whatever the ids. */
  lemma KnownPolicySelected(objectId: Text, projectId: Text)
    ensures SelectProjectPolicy(Ascii("project_signal_v1"), objectId, projectId) == Ascii("project_signal_v1")
    ensures SelectProjectPolicy(Ascii("project_admin_v0"), objectId, projectId) == Ascii("project_admin_v0")
    ensures SelectProjectPolicy(Ascii("project_signal_reviewer_v1"), objectId, projectId) == Ascii("project_signal_v1")
    ensures SelectProjectPolicy(Ascii("project_reviewer_v0"), objectId, projectId) == Ascii("project_admin_v0")
  {
    assert |PROJECT_SIGNAL| == 17 && |PROJECT_ADMIN| == 16 && |SIGNAL_REVIEWER| == 26 && |PROJECT_REVIEWER| == 19;
  }

  predicate KnownPolicy(policy: Text) {
    policy == PROJECT_SIGNAL || policy == PROJECT_ADMIN || policy == SIGNAL_REVIEWER || policy == PROJECT_REVIEWER
  }

  /** Without a known policy, an id scoped to the project selects the signal policy, and an id that does not match it the admin one. */
  lemma UnknownPolicyFollowsScope(policy: Text, projectId: Text, nonce: seq<Byte>, objectId: Text)
    requires !KnownPolicy(policy)
    ensures ScopedId(projectId, nonce) == Success(objectId) ==> SelectProjectPolicy(policy, objectId, projectId) == PROJECT_SIGNAL
    ensures SelectProjectPolicy(policy, objectId, projectId) == PROJECT_SIGNAL <==> IdMatches(objectId, projectId) == Success(true)
  {
    ScopedIdMatches(projectId, nonce);
    assert |PROJECT_SIGNAL| != |PROJECT_ADMIN|;
  }

  // ---------- Snapshots ----------

  datatype SnapshotInput = SnapshotInput(
    packageId: Text,
    network: Text,
    objectId: Text,
    policyId: Text,
    policyObjectId: Text,
    projectId: Option<Text>,
    ownerAddress: Option<Text>,
    walletAddress: Option<Text>,
    serverObjectIds: seq<Text>,
    capabilityType: Option<Text>)

  /** The nine normalised fields a policy is made of. */
  datatype PolicyFields = PolicyFields(
    packageId: Text,
    network: Text,
    objectId: Text,
    policyId: Text,
    policyObjectId: Text,
    projectId: Option<Text>,
    ownerAddress: Option<Text>,
    serverObjectIds: seq<Text>,
    capabilityType: Text)

  datatype Snapshot = Snapshot(
    fields: PolicyFields,
    walletAddress: Option<Text>,
    rawPolicyJson: Text,
    policyHash: Text,
    normalizedPolicyJson: Text)

  const PACKAGE_ID: Text := Ascii("packageId")
  const NETWORK: Text := Ascii("network")
  const OBJECT_ID: Text := Ascii("objectId")
  const POLICY_ID: Text := Ascii("policyId")
  const POLICY_OBJECT_ID: Text := Ascii("policyObjectId")
  const PROJECT_ID: Text := Ascii("projectId")
  const OWNER_ADDRESS: Text := Ascii("ownerAddress")
  const SERVER_OBJECT_IDS: Text := Ascii("serverObjectIds")
  const CAPABILITY_TYPE: Text := Ascii("capabilityType")

  function OptionalValue(t: Option<Text>): Value {
    if t.Some? then Str(t.value) else Undefined
  }

  function TextItems(ts: seq<Text>): (r: seq<Value>)
    ensures |r| == |ts| && forall i :: 0 <= i < |ts| ==> r[i] == Str(ts[i])
  {
    seq(|ts|, i requires 0 <= i < |ts| => Str(ts[i]))
  }

  function PolicyMembers(p: PolicyFields): seq<Member> {
    [ Member(PACKAGE_ID, Str(p.packageId)),
      Member(NETWORK, Str(p.network)),
      Member(OBJECT_ID, Str(p.objectId)),
      Member(POLICY_ID, Str(p.policyId)),
      Member(POLICY_OBJECT_ID, Str(p.policyObjectId)),
      Member(PROJECT_ID, OptionalValue(p.projectId)),
      Member(OWNER_ADDRESS, OptionalValue(p.ownerAddress)),
      Member(SERVER_OBJECT_IDS, Arr(TextItems(p.serverObjectIds))),
      Member(CAPABILITY_TYPE, Str(p.capabilityType)) ]
  }

  function NormalFields(input: SnapshotInput): PolicyFields {
    PolicyFields(
      Normalize(input.packageId),
      input.network,
      Normalize(input.objectId),
      input.policyId,
      Normalize(input.policyObjectId),
      NormalizeOptional(input.projectId),
      NormalizeOptional(input.ownerAddress),
      NormalizeIds(input.serverObjectIds),
      if input.capabilityType.Some? then input.capabilityType.value else CapabilityType(input.policyId))
  }

  function CanonicalText(less: Order, p: PolicyFields): Text {
    StableSerialize(less, Obj(PolicyMembers(p)))
  }

  /** `createSealPolicySnapshot` */
  function CreateSnapshot(less: Order, input: SnapshotInput): Snapshot {
    var p := NormalFields(input);
    Snapshot(
      p,
      NormalizeOptional(input.walletAddress),
      PrettyPrint(Strip(SortPolicyValue(less, Obj(PolicyMembers(p)))), 0, []),
      HashPolicyText(CanonicalText(less, p)),
      CanonicalText(less, p))
  }

  /** A number that tells the keys used here apart. */
  function Tag(t: Text): (int, int, int, int) {
    if |t| < 3 then (|t|, 0, 0, 0) else (|t|, t[0], t[1], t[|t| - 1])
  }

  lemma PolicyMembersWellFormed(p: PolicyFields)
    ensures WellFormed(Obj(PolicyMembers(p)))
  {
    var ms := PolicyMembers(p);
    assert Tag(ms[0].key) == (9, 'p' as int, 'a' as int, 'd' as int);
    assert Tag(ms[1].key) == (7, 'n' as int, 'e' as int, 'k' as int);
    assert Tag(ms[2].key) == (8, 'o' as int, 'b' as int, 'd' as int);
    assert Tag(ms[3].key) == (8, 'p' as int, 'o' as int, 'd' as int);
    assert Tag(ms[4].key) == (14, 'p' as int, 'o' as int, 'd' as int);
    assert Tag(ms[5].key) == (9, 'p' as int, 'r' as int, 'd' as int);
    assert Tag(ms[6].key) == (12, 'o' as int, 'w' as int, 's' as int);
    assert Tag(ms[7].key) == (15, 's' as int, 'e' as int, 's' as int);
    assert Tag(ms[8].key) == (14, 'c' as int, 'a' as int, 'e' as int);
    assert DistinctKeys(ms);
  }

  lemma TextItemsInjective(ts: seq<Text>, us: seq<Text>)
    requires DenoteItems(TextItems(ts)) == DenoteItems(TextItems(us))
    ensures ts == us
  {
    var d := DenoteItems(TextItems(ts));
    assert |d| == |ts| == |us|;
    forall i | 0 <= i < |ts| ensures ts[i] == us[i] {
      assert d[i] == MStr(ts[i]) && d[i] == MStr(us[i]);
    }
  }

  /** One entry of a policy, as the map it denotes has it. */
  ghost predicate SameEntry(m: Member, n: Member) {
    m.key == n.key && (m.value.Undefined? <==> n.value.Undefined?) && Denote(m.value) == Denote(n.value)
  }

  /** Objects that list the same keys and get the same text have the same entries. */
  lemma SameTextSameEntries(less: Order, ms: seq<Member>, ns: seq<Member>)
    requires StrictTotal(less) && WellFormed(Obj(ms)) && WellFormed(Obj(ns))
    requires |ms| == |ns| && forall i :: 0 <= i < |ms| ==> ms[i].key == ns[i].key
    requires StableSerialize(less, Obj(ms)) == StableSerialize(less, Obj(ns))
    ensures forall i :: 0 <= i < |ms| ==> SameEntry(ms[i], ns[i])
  {
    SerializationCanonical(less, Obj(ms), Obj(ns));
    assert DenoteMembers(ms) == DenoteMembers(ns);
    forall i | 0 <= i < |ms| ensures SameEntry(ms[i], ns[i]) {
      EntryDenoted(ms, i);
      EntryDenoted(ns, i);
    }
  }

  lemma SameEntriesSameFields(p: PolicyFields, q: PolicyFields)
    requires forall i :: 0 <= i < 9 ==> SameEntry(PolicyMembers(p)[i], PolicyMembers(q)[i])
    ensures p == q
  {
    var ms, ns := PolicyMembers(p), PolicyMembers(q);
    assert SameEntry(ms[0], ns[0]) && SameEntry(ms[1], ns[1]) && SameEntry(ms[2], ns[2]);
    assert SameEntry(ms[3], ns[3]) && SameEntry(ms[4], ns[4]) && SameEntry(ms[5], ns[5]);
    assert SameEntry(ms[6], ns[6]) && SameEntry(ms[7], ns[7]) && SameEntry(ms[8], ns[8]);
    TextItemsInjective(p.serverObjectIds, q.serverObjectIds);
  }

  lemma SameKeys(p: PolicyFields, q: PolicyFields, ms: seq<Member>, ns: seq<Member>)
    requires ms == PolicyMembers(p) && ns == PolicyMembers(q)
    ensures |ms| == |ns| && forall i :: 0 <= i < |ms| ==> ms[i].key == ns[i].key
  {
  }

  lemma SameTextSameFields(less: Order, p: PolicyFields, q: PolicyFields, ms: seq<Member>, ns: seq<Member>)
    requires StrictTotal(less) && ms == PolicyMembers(p) && ns == PolicyMembers(q)
    requires WellFormed(Obj(ms)) && WellFormed(Obj(ns))
    requires StableSerialize(less, Obj(ms)) == StableSerialize(less, Obj(ns))
    ensures p == q
  {
    SameKeys(p, q, ms, ns);
    SameTextSameEntries(less, ms, ns);
    SameEntriesSameFields(p, q);
  }

  /** The canonical text of a policy determines all nine fields, the server ids as a list. */
  lemma CanonicalTextInjective(less: Order, p: PolicyFields, q: PolicyFields)
    requires StrictTotal(less)
    ensures CanonicalText(less, p) == CanonicalText(less, q) <==> p == q
  {
    if CanonicalText(less, p) == CanonicalText(less, q) {
      PolicyMembersWellFormed(p);
      PolicyMembersWellFormed(q);
      SameTextSameFields(less, p, q, PolicyMembers(p), PolicyMembers(q));
    }
  }

  // ---------- Comparison ----------

  datatype SnapshotKey =
    | PolicyHashKey | PackageIdKey | NetworkKey | CapabilityTypeKey | ObjectIdKey | PolicyIdKey
    | PolicyObjectIdKey | ProjectIdKey | OwnerAddressKey | NormalizedPolicyJsonKey
    | WalletAddressKey | ServerObjectIdsKey

  datatype FieldValue = Missing | One(t: Text) | Many(ts: seq<Text>)

  datatype Diff = Diff(key: SnapshotKey, encryptValue: FieldValue, decryptValue: FieldValue)

  datatype Comparison = Comparison(matches: bool, differingKeys: seq<SnapshotKey>, diffs: seq<Diff>)

  const COMPARED_KEYS: seq<SnapshotKey> :=
    [ PolicyHashKey, PackageIdKey, NetworkKey, CapabilityTypeKey, ObjectIdKey, PolicyIdKey,
      PolicyObjectIdKey, ProjectIdKey, OwnerAddressKey, NormalizedPolicyJsonKey ]

  function Optional(t: Option<Text>): FieldValue {
    if t.Some? then One(t.value) else Missing
  }

  function ValueAt(s: Snapshot, key: SnapshotKey): FieldValue {
    match key
    case PolicyHashKey => One(s.policyHash)
    case PackageIdKey => One(s.fields.packageId)
    case NetworkKey => One(s.fields.network)
    case CapabilityTypeKey => One(s.fields.capabilityType)
    case ObjectIdKey => One(s.fields.objectId)
    case PolicyIdKey => One(s.fields.policyId)
    case PolicyObjectIdKey => One(s.fields.policyObjectId)
    case ProjectIdKey => Optional(s.fields.projectId)
    case OwnerAddressKey => Optional(s.fields.ownerAddress)
    case NormalizedPolicyJsonKey => One(s.normalizedPolicyJson)
    case WalletAddressKey => Optional(s.walletAddress)
    case ServerObjectIdsKey => Many(s.fields.serverObjectIds)
  }

  /** `ids.join("\n")` */
  function JoinLines(ts: seq<Text>): Text {
    Join(ts, 10)
  }

  /** Whether the comparison reports `key`. Server lists are compared as joined text. */
  predicate Reported(e: Snapshot, d: Snapshot, key: SnapshotKey) {
    match key
    case WalletAddressKey =>
      e.walletAddress.Some? && e.walletAddress.value != [] && e.walletAddress != d.walletAddress
    case ServerObjectIdsKey => JoinLines(e.fields.serverObjectIds) != JoinLines(d.fields.serverObjectIds)
    case _ => ValueAt(e, key) != ValueAt(d, key)
  }

  function DiffOf(e: Snapshot, d: Snapshot, key: SnapshotKey): seq<Diff> {
    if Reported(e, d, key) then [Diff(key, ValueAt(e, key), ValueAt(d, key))] else []
  }

  function DiffsOf(e: Snapshot, d: Snapshot, keys: seq<SnapshotKey>): seq<Diff> {
    if keys == [] then [] else DiffsOf(e, d, keys[..|keys| - 1]) + DiffOf(e, d, keys[|keys| - 1])
  }

  function KeysOf(diffs: seq<Diff>): (r: seq<SnapshotKey>)
    ensures |r| == |diffs|
  {
    seq(|diffs|, i requires 0 <= i < |diffs| => diffs[i].key)
  }

  /** The comparison of two snapshots. */
  function Compare(e: Snapshot, d: Snapshot): Comparison {
    var diffs := DiffsOf(e, d, COMPARED_KEYS) + DiffOf(e, d, WalletAddressKey) + DiffOf(e, d, ServerObjectIdsKey);
    Comparison(diffs == [], KeysOf(diffs), diffs)
  }

  /** The loop of `compareSealPolicySnapshots` over the plainly compared keys. */
  method CollectDiffs(e: Snapshot, d: Snapshot, keys: seq<SnapshotKey>) returns (diffs: seq<Diff>)
    requires WalletAddressKey !in keys && ServerObjectIdsKey !in keys
    ensures diffs == DiffsOf(e, d, keys)
  {
    diffs := [];
    for i := 0 to |keys|
      invariant diffs == DiffsOf(e, d, keys[..i])
    {
      var key := keys[i];
      assert keys[..i + 1][..i] == keys[..i];
      assert key in keys;
      if ValueAt(e, key) != ValueAt(d, key) {
        diffs := diffs + [Diff(key, ValueAt(e, key), ValueAt(d, key))];
      }
    }
    assert keys[..|keys|] == keys;
  }

  /** `compareSealPolicySnapshots` */
  method CompareSealPolicySnapshots(encrypt: Option<Snapshot>, decrypt: Option<Snapshot>)
    returns (r: Option<Comparison>)
    ensures r == if encrypt.Some? && decrypt.Some? then Some(Compare(encrypt.value, decrypt.value)) else None
  {
    if encrypt.None? || decrypt.None? {
      return None;
    }
    var e, d := encrypt.value, decrypt.value;
    var diffs := CollectDiffs(e, d, COMPARED_KEYS);
    ghost var plain := diffs;
    if e.walletAddress.Some? && e.walletAddress.value != [] && e.walletAddress != d.walletAddress {
      diffs := diffs + [Diff(WalletAddressKey, Optional(e.walletAddress), Optional(d.walletAddress))];
    }
    assert diffs == plain + DiffOf(e, d, WalletAddressKey);
    if JoinLines(e.fields.serverObjectIds) != JoinLines(d.fields.serverObjectIds) {
      diffs := diffs + [Diff(ServerObjectIdsKey, Many(e.fields.serverObjectIds), Many(d.fields.serverObjectIds))];
    }
    assert diffs == plain + DiffOf(e, d, WalletAddressKey) + DiffOf(e, d, ServerObjectIdsKey);
    r := Some(Comparison(|KeysOf(diffs)| == 0, KeysOf(diffs), diffs));
  }

  /** The comparison reports exactly the keys that differ, each with both values. */
  lemma {:induction false} DiffsExact(e: Snapshot, d: Snapshot, keys: seq<SnapshotKey>)
    ensures forall x :: x in DiffsOf(e, d, keys) <==>
              x.key in keys && Reported(e, d, x.key) && x == Diff(x.key, ValueAt(e, x.key), ValueAt(d, x.key))
  {
    if keys == [] {
    } else {
      var init := keys[..|keys| - 1];
      DiffsExact(e, d, init);
      assert keys == init + [keys[|keys| - 1]];
    }
  }

  lemma KeysOfDiffs(diffs: seq<Diff>, key: SnapshotKey)
    ensures key in KeysOf(diffs) <==> exists x :: x in diffs && x.key == key
  {
    if key in KeysOf(diffs) {
      var i :| 0 <= i < |diffs| && KeysOf(diffs)[i] == key;
      assert diffs[i] in diffs;
    }
    if x :| x in diffs && x.key == key {
      var i :| 0 <= i < |diffs| && diffs[i] == x;
      assert KeysOf(diffs)[i] == key;
    }
  }

  lemma DiffsInclude(e: Snapshot, d: Snapshot, key: SnapshotKey)
    ensures Reported(e, d, key) <==> exists x :: x in Compare(e, d).diffs && x.key == key
  {
    DiffsExact(e, d, COMPARED_KEYS);
    if Reported(e, d, key) {
      AllKeys(key);
      assert Diff(key, ValueAt(e, key), ValueAt(d, key)) in Compare(e, d).diffs;
    }
  }

  /** `matches` means that nothing is reported, and `differingKeys` lists what is. */
  lemma CompareReports(e: Snapshot, d: Snapshot)
    ensures Compare(e, d).matches <==> forall key :: !Reported(e, d, key)
    ensures forall key :: key in Compare(e, d).differingKeys <==> Reported(e, d, key)
  {
    var diffs := Compare(e, d).diffs;
    forall key ensures Reported(e, d, key) <==> exists x :: x in diffs && x.key == key {
      DiffsInclude(e, d, key);
    }
    forall key ensures key in Compare(e, d).differingKeys <==> Reported(e, d, key) {
      KeysOfDiffs(diffs, key);
    }
    if diffs != [] {
      assert diffs[0] in diffs;
      assert Reported(e, d, diffs[0].key);
    } else {
      assert forall key :: !Reported(e, d, key);
    }
  }

  lemma AllKeys(key: SnapshotKey)
    ensures key in COMPARED_KEYS || key == WalletAddressKey || key == ServerObjectIdsKey
  {
    var ks := COMPARED_KEYS;
    match key
    case PolicyHashKey => assert ks[0] == key;
    case PackageIdKey => assert ks[1] == key;
    case NetworkKey => assert ks[2] == key;
    case CapabilityTypeKey => assert ks[3] == key;
    case ObjectIdKey => assert ks[4] == key;
    case PolicyIdKey => assert ks[5] == key;
    case PolicyObjectIdKey => assert ks[6] == key;
    case ProjectIdKey => assert ks[7] == key;
    case OwnerAddressKey => assert ks[8] == key;
    case NormalizedPolicyJsonKey => assert ks[9] == key;
    case _ =>
  }

  ghost predicate SamePolicy(e: Snapshot, d: Snapshot) {
    e.fields == d.fields && (e.walletAddress.Some? ==> e.walletAddress == d.walletAddress)
  }

  /** The hash and the canonical text of two snapshots follow from their fields. */
  ghost predicate Faithful(e: Snapshot, d: Snapshot) {
    && (e.normalizedPolicyJson == d.normalizedPolicyJson <==> e.fields == d.fields)
    && (e.normalizedPolicyJson == d.normalizedPolicyJson ==> e.policyHash == d.policyHash)
    && e.walletAddress != Some([])
  }

  lemma CreatedFaithful(less: Order, a: SnapshotInput, b: SnapshotInput)
    requires StrictTotal(less)
    ensures Faithful(CreateSnapshot(less, a), CreateSnapshot(less, b))
  {
    CanonicalTextInjective(less, NormalFields(a), NormalFields(b));
  }

  lemma UnreportedExactly(e: Snapshot, d: Snapshot)
    requires Faithful(e, d)
    ensures (forall key :: !Reported(e, d, key)) <==> SamePolicy(e, d)
  {
    if forall key :: !Reported(e, d, key) {
      assert !Reported(e, d, NormalizedPolicyJsonKey) && !Reported(e, d, WalletAddressKey);
    }
  }

  /**
   Two created snapshots match exactly when all nine policy fields agree, the server ids as a
   list, and the encrypting wallet, if there is one, is the decrypting wallet.
   */
  lemma MatchesExactly(less: Order, a: SnapshotInput, b: SnapshotInput)
    requires StrictTotal(less)
    ensures var e, d := CreateSnapshot(less, a), CreateSnapshot(less, b);
            Compare(e, d).matches <==> SamePolicy(e, d)
  {
    var e, d := CreateSnapshot(less, a), CreateSnapshot(less, b);
    CreatedFaithful(less, a, b);
    UnreportedExactly(e, d);
    CompareReports(e, d);
  }

  /**
   The comparison on the inputs: created snapshots match exactly when the normalised identifiers
   agree, with absent and empty ones alike, network, policy and effective capability type agree, and
   the normalised encrypting wallet, if there is one, is the decrypting one.
   */
  lemma InputsMatchExactly(less: Order, a: SnapshotInput, b: SnapshotInput)
    requires StrictTotal(less)
    ensures Compare(CreateSnapshot(less, a), CreateSnapshot(less, b)).matches <==>
              && Normalize(a.packageId) == Normalize(b.packageId)
              && a.network == b.network
              && Normalize(a.objectId) == Normalize(b.objectId)
              && a.policyId == b.policyId
              && Normalize(a.policyObjectId) == Normalize(b.policyObjectId)
              && NormalizeOptional(a.projectId) == NormalizeOptional(b.projectId)
              && NormalizeOptional(a.ownerAddress) == NormalizeOptional(b.ownerAddress)
              && NormalizeIds(a.serverObjectIds) == NormalizeIds(b.serverObjectIds)
              && (if a.capabilityType.Some? then a.capabilityType.value else CapabilityType(a.policyId)) ==
                 (if b.capabilityType.Some? then b.capabilityType.value else CapabilityType(b.policyId))
              && (NormalizeOptional(a.walletAddress).Some? ==>
                    NormalizeOptional(a.walletAddress) == NormalizeOptional(b.walletAddress))
  {
    MatchesExactly(less, a, b);
  }

  /** An id is kept, normalised, exactly when it does not normalise to nothing. */
  lemma NormalizeIdsExactly(ids: seq<Text>, id: Text)
    ensures id in NormalizeIds(ids) <==> id != [] && exists i :: 0 <= i < |ids| && Normalize(ids[i]) == id
  {
    var m := Map(Normalize, ids);
    if i :| 0 <= i < |ids| && Normalize(ids[i]) == id {
      assert m[i] == id;
    }
    if id in m {
      var i :| 0 <= i < |m| && m[i] == id;
      assert Normalize(ids[i]) == id;
    }
  }

  lemma NormalizeOptionalExactly(value: Option<Text>)
    ensures NormalizeOptional(value).Some? <==> value.Some? && Normalize(value.value) != []
    ensures NormalizeOptional(value).Some? ==> NormalizeOptional(value).value == Normalize(value.value)
  {
  }

  /** The capability types by policy, as both sides of the comparison show them. */
  lemma CapabilityTypes()
    ensures CapabilityType(Ascii("owner_wallet_v1")) == Ascii("Owner wallet")
    ensures CapabilityType(Ascii("project_signal_v1")) == Ascii("OwnerCap/AdminCap")
    ensures CapabilityType(Ascii("project_admin_v0")) == Ascii("OwnerCap/AdminCap")
    ensures CapabilityType(Ascii("project_signal_reviewer_v1")) == Ascii("OwnerCap/AdminCap")
    ensures CapabilityType(Ascii("project_reviewer_v0")) == Ascii("OwnerCap/AdminCap")
    ensures CapabilityType([]) == Ascii("Unknown")
  {
    assert |OWNER_WALLET| == 15 && |PROJECT_SIGNAL| == 17 && |PROJECT_ADMIN| == 16;
    assert |SIGNAL_REVIEWER| == 26 && |PROJECT_REVIEWER| == 19;
  }

  ghost predicate Shows(v: FieldValue, t: Option<Text>) {
    if t.Some? then v == One(t.value) else v == Missing
  }

  /** A comparison reports a key exactly when its values differ, and then shows both. */
  ghost predicate Tells(r: Comparison, key: SnapshotKey, x: Option<Text>, y: Option<Text>) {
    && (key in r.differingKeys <==> x != y)
    && forall diff :: diff in r.diffs && diff.key == key ==> Shows(diff.encryptValue, x) && Shows(diff.decryptValue, y)
  }

  lemma ValuesShown(e: Snapshot, d: Snapshot, diff: Diff)
    requires diff in Compare(e, d).diffs
    ensures diff.encryptValue == ValueAt(e, diff.key) && diff.decryptValue == ValueAt(d, diff.key)
  {
    DiffsExact(e, d, COMPARED_KEYS);
  }

  lemma KeyTold(e: Snapshot, d: Snapshot, key: SnapshotKey, x: Option<Text>, y: Option<Text>)
    requires key != WalletAddressKey && key != ServerObjectIdsKey
    requires Shows(ValueAt(e, key), x) && Shows(ValueAt(d, key), y)
    ensures Tells(Compare(e, d), key, x, y)
  {
    CompareReports(e, d);
    var diffs := Compare(e, d).diffs;
    forall diff | diff in diffs && diff.key == key ensures Shows(diff.encryptValue, x) && Shows(diff.decryptValue, y) {
      ValuesShown(e, d, diff);
    }
  }

  ghost predicate TellsScope(r: Comparison, x: PolicyFields, y: PolicyFields) {
    && Tells(r, PackageIdKey, Some(x.packageId), Some(y.packageId))
    && Tells(r, NetworkKey, Some(x.network), Some(y.network))
    && Tells(r, ObjectIdKey, Some(x.objectId), Some(y.objectId))
    && Tells(r, ProjectIdKey, x.projectId, y.projectId)
    && Tells(r, OwnerAddressKey, x.ownerAddress, y.ownerAddress)
  }

  ghost predicate TellsPolicy(r: Comparison, x: PolicyFields, y: PolicyFields) {
    && Tells(r, PolicyIdKey, Some(x.policyId), Some(y.policyId))
    && Tells(r, PolicyObjectIdKey, Some(x.policyObjectId), Some(y.policyObjectId))
    && Tells(r, CapabilityTypeKey, Some(x.capabilityType), Some(y.capabilityType))
  }

  lemma ScopeTold(e: Snapshot, d: Snapshot)
    ensures TellsScope(Compare(e, d), e.fields, d.fields)
  {
    KeyTold(e, d, PackageIdKey, Some(e.fields.packageId), Some(d.fields.packageId));
    KeyTold(e, d, NetworkKey, Some(e.fields.network), Some(d.fields.network));
    KeyTold(e, d, ObjectIdKey, Some(e.fields.objectId), Some(d.fields.objectId));
    KeyTold(e, d, ProjectIdKey, e.fields.projectId, d.fields.projectId);
    KeyTold(e, d, OwnerAddressKey, e.fields.ownerAddress, d.fields.ownerAddress);
  }

  lemma PolicyTold(e: Snapshot, d: Snapshot)
    ensures TellsPolicy(Compare(e, d), e.fields, d.fields)
  {
    KeyTold(e, d, PolicyIdKey, Some(e.fields.policyId), Some(d.fields.policyId));
    KeyTold(e, d, PolicyObjectIdKey, Some(e.fields.policyObjectId), Some(d.fields.policyObjectId));
    KeyTold(e, d, CapabilityTypeKey, Some(e.fields.capabilityType), Some(d.fields.capabilityType));
  }

  /** The fields of a policy in terms of the input. */
  lemma FieldsOfInput(less: Order, a: SnapshotInput)
    ensures CreateSnapshot(less, a).fields == PolicyFields(
              Normalize(a.packageId), a.network, Normalize(a.objectId), a.policyId, Normalize(a.policyObjectId),
              NormalizeOptional(a.projectId), NormalizeOptional(a.ownerAddress), NormalizeIds(a.serverObjectIds),
              if a.capabilityType.Some? then a.capabilityType.value else CapabilityType(a.policyId))
  {
  }

  /** What the comparison of created snapshots reports of a field: it differs, and the two normalised values. */
  lemma InputsTold(less: Order, a: SnapshotInput, b: SnapshotInput)
    ensures var r := Compare(CreateSnapshot(less, a), CreateSnapshot(less, b));
            && Tells(r, PackageIdKey, Some(Normalize(a.packageId)), Some(Normalize(b.packageId)))
            && Tells(r, NetworkKey, Some(a.network), Some(b.network))
            && Tells(r, ObjectIdKey, Some(Normalize(a.objectId)), Some(Normalize(b.objectId)))
            && Tells(r, PolicyIdKey, Some(a.policyId), Some(b.policyId))
            && Tells(r, PolicyObjectIdKey, Some(Normalize(a.policyObjectId)), Some(Normalize(b.policyObjectId)))
            && Tells(r, ProjectIdKey, NormalizeOptional(a.projectId), NormalizeOptional(b.projectId))
            && Tells(r, OwnerAddressKey, NormalizeOptional(a.ownerAddress), NormalizeOptional(b.ownerAddress))
            && (a.capabilityType.Some? && b.capabilityType.Some? ==>
                  Tells(r, CapabilityTypeKey, a.capabilityType, b.capabilityType))
  {
    ScopeTold(CreateSnapshot(less, a), CreateSnapshot(less, b));
    PolicyTold(CreateSnapshot(less, a), CreateSnapshot(less, b));
    FieldsOfInput(less, a);
    FieldsOfInput(less, b);
  }

  /** Of two snapshots, what is reported of the texts derived from the fields, of the wallets and of the servers. */
  lemma OthersTold(e: Snapshot, d: Snapshot)
    requires e.walletAddress != Some([])
    ensures var r := Compare(e, d);
            && Tells(r, PolicyHashKey, Some(e.policyHash), Some(d.policyHash))
            && Tells(r, NormalizedPolicyJsonKey, Some(e.normalizedPolicyJson), Some(d.normalizedPolicyJson))
            && (WalletAddressKey in r.differingKeys <==> e.walletAddress.Some? && e.walletAddress != d.walletAddress)
            && forall x :: x in r.diffs ==>
                 && (x.key == WalletAddressKey ==>
                       Shows(x.encryptValue, e.walletAddress) && Shows(x.decryptValue, d.walletAddress))
                 && (x.key == ServerObjectIdsKey ==>
                       && x.encryptValue == Many(e.fields.serverObjectIds)
                       && x.decryptValue == Many(d.fields.serverObjectIds))
  {
    KeyTold(e, d, PolicyHashKey, Some(e.policyHash), Some(d.policyHash));
    KeyTold(e, d, NormalizedPolicyJsonKey, Some(e.normalizedPolicyJson), Some(d.normalizedPolicyJson));
    CompareReports(e, d);
    forall x | x in Compare(e, d).diffs
      ensures x.encryptValue == ValueAt(e, x.key) && x.decryptValue == ValueAt(d, x.key)
    {
      ValuesShown(e, d, x);
    }
  }

  // ---------- What a created snapshot seals ----------

  /** The canonical text of a snapshot holds a normalised text under its key. */
  ghost predicate Seals(m: map<Text, Meaning>, key: Text, value: Option<Text>) {
    if value.Some? then key in m && m[key] == MStr(value.value) else key !in m
  }

  lemma MemberSealed(p: PolicyFields, ms: seq<Member>, i: nat, value: Option<Text>)
    requires ms == PolicyMembers(p) && i < 9 && ms[i].value == OptionalValue(value) && DistinctKeys(ms)
    ensures Seals(DenoteMembers(ms), ms[i].key, value)
  {
    EntryDenoted(ms, i);
  }

  lemma ScopeSealed(p: PolicyFields, ms: seq<Member>, m: map<Text, Meaning>)
    requires ms == PolicyMembers(p) && m == DenoteMembers(ms) && DistinctKeys(ms)
    ensures Seals(m, PACKAGE_ID, Some(p.packageId)) && Seals(m, NETWORK, Some(p.network))
    ensures Seals(m, OBJECT_ID, Some(p.objectId)) && Seals(m, POLICY_ID, Some(p.policyId))
  {
    MemberSealed(p, ms, 0, Some(p.packageId));
    MemberSealed(p, ms, 1, Some(p.network));
    MemberSealed(p, ms, 2, Some(p.objectId));
    MemberSealed(p, ms, 3, Some(p.policyId));
  }

  lemma OwnershipSealed(p: PolicyFields, ms: seq<Member>, m: map<Text, Meaning>)
    requires ms == PolicyMembers(p) && m == DenoteMembers(ms) && DistinctKeys(ms)
    ensures Seals(m, POLICY_OBJECT_ID, Some(p.policyObjectId)) && Seals(m, PROJECT_ID, p.projectId)
    ensures Seals(m, OWNER_ADDRESS, p.ownerAddress) && Seals(m, CAPABILITY_TYPE, Some(p.capabilityType))
  {
    MemberSealed(p, ms, 4, Some(p.policyObjectId));
    MemberSealed(p, ms, 5, p.projectId);
    MemberSealed(p, ms, 6, p.ownerAddress);
    MemberSealed(p, ms, 8, Some(p.capabilityType));
  }

  lemma ServerMeanings(ts: seq<Text>)
    ensures DenoteItems(TextItems(ts)) == Map((t: Text) => MStr(t), ts)
  {
    var d, m := DenoteItems(TextItems(ts)), Map((t: Text) => MStr(t), ts);
    assert |d| == |m|;
    assert forall i :: 0 <= i < |ts| ==> d[i] == MStr(ts[i]);
  }

  lemma ServersSealed(p: PolicyFields, ms: seq<Member>)
    requires ms == PolicyMembers(p) && DistinctKeys(ms)
    ensures SERVER_OBJECT_IDS in DenoteMembers(ms)
    ensures DenoteMembers(ms)[SERVER_OBJECT_IDS] == MArr(Map((t: Text) => MStr(t), p.serverObjectIds))
  {
    EntryDenoted(ms, 7);
    ServerMeanings(p.serverObjectIds);
    assert Denote(ms[7].value) == MArr(DenoteItems(TextItems(p.serverObjectIds)));
  }

  /**
   The canonical text of a created snapshot reads back as an object with the normalised fields under
   their names, and the hash is that of this text.
   */
  lemma SnapshotSealsInput(less: Order, input: SnapshotInput)
    requires StrictTotal(less)
    ensures var s := CreateSnapshot(less, input);
            var d := Decode(s.normalizedPolicyJson);
            && d.Some? && Denote(d.value).MObj?
            && (var m := Denote(d.value).entries;
                && Seals(m, Ascii("packageId"), Some(Normalize(input.packageId)))
                && Seals(m, Ascii("network"), Some(input.network))
                && Seals(m, Ascii("objectId"), Some(Normalize(input.objectId)))
                && Seals(m, Ascii("policyId"), Some(input.policyId))
                && Seals(m, Ascii("policyObjectId"), Some(Normalize(input.policyObjectId)))
                && Seals(m, Ascii("projectId"), NormalizeOptional(input.projectId))
                && Seals(m, Ascii("ownerAddress"), NormalizeOptional(input.ownerAddress))
                && Seals(m, Ascii("capabilityType"),
                         Some(if input.capabilityType.Some? then input.capabilityType.value else CapabilityType(input.policyId)))
                && Ascii("serverObjectIds") in m
                && m[Ascii("serverObjectIds")] == MArr(Map((t: Text) => MStr(t), NormalizeIds(input.serverObjectIds))))
            && s.policyHash == HashPolicyText(s.normalizedPolicyJson)
            && s.walletAddress == NormalizeOptional(input.walletAddress)
  {
    var p := NormalFields(input);
    var ms := PolicyMembers(p);
    PolicyMembersWellFormed(p);
    SerializationReadsBack(less, Obj(ms));
    ScopeSealed(p, ms, DenoteMembers(ms));
    OwnershipSealed(p, ms, DenoteMembers(ms));
    ServersSealed(p, ms);
  }

  /** The raw policy text of a snapshot is its canonical text with layout: it loses nothing and adds nothing. */
  lemma RawPolicyIsCanonical(less: Order, input: SnapshotInput)
    requires StrictTotal(less)
    ensures var s := CreateSnapshot(less, input); Squeeze(s.rawPolicyJson) == s.normalizedPolicyJson
  {
    var v := Obj(PolicyMembers(NormalFields(input)));
    PolicyMembersWellFormed(NormalFields(input));
    SortKeepsMeaning(less, v);
    SortedIsWellFormed(less, SortPolicyValue(less, v));
    PrettyIsCompact(Strip(SortPolicyValue(less, v)), 0, []);
  }

  // ---------- Comparing joined server ids ----------

  /** The lines of all ids, one after the other. */
  function AllLines(ids: seq<Text>): seq<Text> {
    AllPieces(ids, 10)
  }

  predicate NoneEmpty(ids: seq<Text>) {
    forall i :: 0 <= i < |ids| ==> ids[i] != []
  }

  lemma JoinNotEmpty(ids: seq<Text>)
    requires NoneEmpty(ids) && ids != []
    ensures JoinLines(ids) != []
  {
  }

  /** Lists of non-empty ids join to one text exactly when they have the same lines. */
  lemma JoinedExactly(a: seq<Text>, b: seq<Text>)
    requires NoneEmpty(a) && NoneEmpty(b)
    ensures JoinLines(a) == JoinLines(b) <==> AllLines(a) == AllLines(b)
  {
    if a == [] || b == [] {
      if a != [] {
        JoinNotEmpty(a);
      }
      if b != [] {
        JoinNotEmpty(b);
      }
    } else {
      JoinedPieces(a, 10);
      JoinedPieces(b, 10);
      SplitJoinsBack(JoinLines(a), 10);
      SplitJoinsBack(JoinLines(b), 10);
    }
  }

  /** No id contains a line break. */
  ghost predicate OneLineEach(ids: seq<Text>) {
    NoneHolds(ids, 10)
  }

  /** Two lists that join to one text are one list, if their ids are not empty and hold no line break. */
  lemma ServerJoinInjective(a: seq<Text>, b: seq<Text>)
    requires NoneEmpty(a) && NoneEmpty(b) && OneLineEach(a) && OneLineEach(b)
    ensures JoinLines(a) == JoinLines(b) <==> a == b
  {
    JoinedExactly(a, b);
    PiecesOfPlain(a, 10);
    PiecesOfPlain(b, 10);
  }

  lemma ServersReported(e: Snapshot, d: Snapshot, x: seq<Text>, y: seq<Text>)
    requires x == e.fields.serverObjectIds && y == d.fields.serverObjectIds && NoneEmpty(x) && NoneEmpty(y)
    ensures Reported(e, d, ServerObjectIdsKey) <==> AllLines(x) != AllLines(y)
    ensures OneLineEach(x) && OneLineEach(y) ==> (Reported(e, d, ServerObjectIdsKey) <==> x != y)
  {
    JoinedExactly(x, y);
    if OneLineEach(x) && OneLineEach(y) {
      ServerJoinInjective(x, y);
    }
  }

  lemma CreatedServers(less: Order, input: SnapshotInput)
    ensures NoneEmpty(CreateSnapshot(less, input).fields.serverObjectIds)
  {
    NormalizeIdsNormal(input.serverObjectIds);
    var ids := NormalizeIds(input.serverObjectIds);
    assert NoneEmpty(ids);
  }

  /**
   The server ids of created snapshots are reported exactly when their lines differ, and so,
   without line breaks in them, exactly when the lists differ.
   */
  lemma ServersReportedExactly(less: Order, a: SnapshotInput, b: SnapshotInput)
    ensures var e, d := CreateSnapshot(less, a), CreateSnapshot(less, b);
            var x, y := e.fields.serverObjectIds, d.fields.serverObjectIds;
            && (Reported(e, d, ServerObjectIdsKey) <==> AllLines(x) != AllLines(y))
            && (OneLineEach(x) && OneLineEach(y) ==> (Reported(e, d, ServerObjectIdsKey) <==> x != y))
  {
    var e, d := CreateSnapshot(less, a), CreateSnapshot(less, b);
    CreatedServers(less, a);
    CreatedServers(less, b);
    ServersReported(e, d, e.fields.serverObjectIds, d.fields.serverObjectIds);
  }

  lemma NormalJoined(x: Text, separator: CodeUnit, y: Text)
    requires Normal(x) && Normal(y) && x != [] && y != [] && !(0x41 <= separator <= 0x5A)
    ensures Normal(x + [separator] + y)
  {
    var whole := x + [separator] + y;
    assert whole[..2] == x[..2] && whole[|whole| - 1] == y[|y| - 1];
    forall i | 0 <= i < |whole| ensures !(0x41 <= whole[i] <= 0x5A) {
      assert i > |x| ==> whole[i] == y[i - |x| - 1];
    }
  }

  /** With line breaks the joined text alone would not do: two ids join like one id with a line break inside. */
  lemma JoinedServersCollide(x: Text, y: Text)
    requires Normal(x) && Normal(y) && x != [] && y != []
    ensures var whole := x + [10] + y;
            && [x, y] != [whole] && JoinLines([x, y]) == JoinLines([whole])
            && NormalIds([x, y]) && NormalIds([whole])
  {
    NormalJoined(x, 10, y);
    assert [x, y][1..] == [y] && Join([y], 10) == y;
    assert |[x, y]| != |[x + [10] + y]|;
  }

  /** The input that `normalizeStoredSealPolicySnapshot` makes of a snapshot. */
  function RestoredInput(s: Snapshot): SnapshotInput {
    SnapshotInput(
      s.fields.packageId, s.fields.network, s.fields.objectId, s.fields.policyId, s.fields.policyObjectId,
      s.fields.projectId, s.fields.ownerAddress, s.walletAddress, s.fields.serverObjectIds,
      Some(s.fields.capabilityType))
  }

  /** `normalizeStoredSealPolicySnapshot`: the snapshot made again from a stored one. */
  function Restored(less: Order, s: Snapshot): Snapshot {
    CreateSnapshot(less, RestoredInput(s))
  }

  /** Restoring leaves created snapshots unchanged. */
  lemma RestoreIsIdentity(less: Order, input: SnapshotInput)
    ensures Restored(less, CreateSnapshot(less, input)) == CreateSnapshot(less, input)
  {
    NormalizeIdempotent(input.packageId);
    NormalizeIdempotent(input.objectId);
    NormalizeIdempotent(input.policyObjectId);
    NormalizeOptionalIdempotent(input.projectId);
    NormalizeOptionalIdempotent(input.ownerAddress);
    NormalizeOptionalIdempotent(input.walletAddress);
    NormalizeIdsNormal(input.serverObjectIds);
    NormalIdsFixed(NormalizeIds(input.serverObjectIds));
  }
}
