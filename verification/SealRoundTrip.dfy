/**
 From `sealClientAdapter.encrypt` through the stored text to the policy comparison that
 precedes decryption.
 */
module SealRoundTrip {
  import opened Text
  import opened Json
  import opened Policy
  import opened Hex
  import opened Seal
  import opened Envelope

  // ---------- Encrypting ----------

  /** The package id, key server and network the application is built with. */
  datatype Config = Config(packageId: Text, serverObjectId: Text, network: Text)

  datatype EncryptContext = EncryptContext(projectId: Option<Text>, ownerAddress: Option<Text>)

  /** What the foreign code supplies: random bytes, the base64 ciphertext and the clock. */
  datatype Supplied = Supplied(nonce: seq<Byte>, random: seq<Byte>, ciphertext: Text, createdAt: Text)

  /** The arguments of `createRealSealEnvelope`, plus the time it adds. */
  datatype Parts = Parts(
    network: Text,
    packageId: Text,
    objectId: Text,
    serverObjectIds: seq<Text>,
    encryptedObject: Text,
    projectId: Option<Text>,
    ownerAddress: Option<Text>,
    policyId: Text,
    policyObjectId: Text,
    snapshot: Snapshot,
    createdAt: Text)

  /** The members of a snapshot beside the nine policy fields. */
  function SnapshotExtras(s: Snapshot): seq<Member> {
    [ Member(WALLET_ADDRESS, OptionalValue(s.walletAddress)),
      Member(RAW_POLICY_JSON, Str(s.rawPolicyJson)),
      Member(POLICY_HASH, Str(s.policyHash)),
      Member(NORMALIZED_POLICY_JSON, Str(s.normalizedPolicyJson)) ]
  }

  function SnapshotMembers(s: Snapshot): seq<Member> {
    PolicyMembers(s.fields) + SnapshotExtras(s)
  }

  /** The members `createRealSealEnvelope` adds itself. */
  function EnvelopeHead(p: Parts): seq<Member> {
    [ Member(KIND, REAL_SEAL_KIND),
      Member(VERSION, ONE),
      Member(SCHEMA_VERSION, ONE),
      Member(ENVELOPE_VERSION, ONE),
      Member(ALGORITHM, SEAL_ALGORITHM),
      Member(ENCODING, BASE64),
      Member(CREATED_AT, Str(p.createdAt)) ]
  }

  /** The members it takes from its argument: the ciphertext and its scope... */
  function EnvelopeScope(p: Parts): seq<Member> {
    [ Member(NETWORK, Str(p.network)),
      Member(PACKAGE_ID, Str(p.packageId)),
      Member(OBJECT_ID, Str(p.objectId)),
      Member(THRESHOLD, ONE),
      Member(SERVER_OBJECT_IDS, Arr(TextItems(p.serverObjectIds))),
      Member(ENCRYPTED_OBJECT, Str(p.encryptedObject)),
      Member(PROJECT_ID, OptionalValue(p.projectId)),
      Member(OWNER_ADDRESS, OptionalValue(p.ownerAddress)) ]
  }

  /** ... and the policy. */
  function EnvelopePolicy(p: Parts): seq<Member> {
    [ Member(POLICY_ID, Str(p.policyId)),
      Member(POLICY_OBJECT_ID, Str(p.policyObjectId)),
      Member(APPROVAL_POLICY, Str(p.policyId)),
      Member(ENCRYPT_POLICY_SNAPSHOT, Obj(SnapshotMembers(p.snapshot))) ]
  }

  function EnvelopeInput(p: Parts): seq<Member> {
    EnvelopeScope(p) + EnvelopePolicy(p)
  }

  /** `createRealSealEnvelope` */
  function EnvelopeMembers(p: Parts): seq<Member> {
    EnvelopeHead(p) + EnvelopeInput(p)
  }

  function EncryptObjectId(c: EncryptContext, x: Supplied): Result<Text> {
    var projectId, ownerAddress := NormalizeOptional(c.projectId), NormalizeOptional(c.ownerAddress);
    if projectId.Some? then ScopedId(projectId.value, x.nonce)
    else if ownerAddress.Some? then ScopedId(ownerAddress.value, x.nonce)
    else Success(ToHex(x.random))
  }

  /** The snapshot input that `encrypt` builds. */
  function EncryptInput(cfg: Config, c: EncryptContext, objectId: Text): SnapshotInput {
    var projectId, ownerAddress := NormalizeOptional(c.projectId), NormalizeOptional(c.ownerAddress);
    var owner := if projectId.Some? then None else ownerAddress;
    SnapshotInput(
      Normalize(cfg.packageId), cfg.network, objectId,
      if projectId.Some? then PROJECT_ADMIN else OWNER_WALLET,
      if projectId.Some? then projectId.value else if ownerAddress.Some? then ownerAddress.value else objectId,
      projectId, owner, owner, [Normalize(cfg.serverObjectId)], None)
  }

  function EncryptParts(less: Order, cfg: Config, c: EncryptContext, x: Supplied, objectId: Text): Parts {
    var i := EncryptInput(cfg, c, objectId);
    Parts(i.network, i.packageId, objectId, i.serverObjectIds, x.ciphertext, i.projectId, i.ownerAddress,
          i.policyId, i.policyObjectId, CreateSnapshot(less, i), x.createdAt)
  }

  /** `encrypt`: the stored text, or an error when Seal is not configured or a scope is malformed. */
  function Encrypt(less: Order, cfg: Config, c: EncryptContext, x: Supplied): Result<Text> {
    if cfg.packageId == [] || cfg.serverObjectId == [] then Failure
    else
      match EncryptObjectId(c, x)
      case Failure => Failure
      case Success(objectId) => Success(Stringify(Obj(EnvelopeMembers(EncryptParts(less, cfg, c, x, objectId)))))
  }

  // ---------- Opening ----------

  datatype DecryptContext = DecryptContext(
    projectId: Option<Text>,
    ownerAddress: Option<Text>,
    walletAddress: Option<Text>)

  function TextField(v: Value, key: Text): Option<Text> {
    if Field(v, key).Str? then Some(Field(v, key).s) else None
  }

  function RequiredText(v: Value, key: Text): Text {
    if Field(v, key).Str? then Field(v, key).s else []
  }

  function TextsOf(v: Value): seq<Text> {
    if TextArray(v) then seq(|v.items|, i requires 0 <= i < |v.items| => v.items[i].s) else []
  }

  function OrElse(a: Option<Text>, b: Option<Text>): Option<Text> {
    if a.Some? then a else b
  }

  /** `buildSealDecryptPolicySnapshot` on an accepted envelope. */
  function DecryptInput(network: Text, e: Value, c: DecryptContext): SnapshotInput {
    var projectId := NormalizeOptional(OrElse(TextField(e, PROJECT_ID), c.projectId));
    var ownerAddress := NormalizeOptional(OrElse(TextField(e, OWNER_ADDRESS), c.ownerAddress));
    var stored := RequiredText(e, APPROVAL_POLICY);
    var policyId :=
      if projectId.Some? then SelectProjectPolicy(stored, RequiredText(e, OBJECT_ID), projectId.value) else stored;
    SnapshotInput(
      RequiredText(e, PACKAGE_ID), network, RequiredText(e, OBJECT_ID), policyId,
      Normalize(RequiredText(e, POLICY_OBJECT_ID)), projectId, ownerAddress, c.walletAddress,
      TextsOf(Field(e, SERVER_OBJECT_IDS)), Some(CapabilityType(policyId)))
  }

  /** `buildSealEncryptPolicySnapshotFromEnvelope`, used when no snapshot is stored. */
  function FallbackInput(e: Value): SnapshotInput {
    SnapshotInput(
      RequiredText(e, PACKAGE_ID), RequiredText(e, NETWORK), RequiredText(e, OBJECT_ID),
      RequiredText(e, POLICY_ID), RequiredText(e, POLICY_OBJECT_ID),
      TextField(e, PROJECT_ID), TextField(e, OWNER_ADDRESS), TextField(e, OWNER_ADDRESS),
      TextsOf(Field(e, SERVER_OBJECT_IDS)), Some(CapabilityType(RequiredText(e, POLICY_ID))))
  }

  /** The input `normalizeStoredSealPolicySnapshot` takes from a stored snapshot of the declared type. */
  function StoredInput(s: Value): SnapshotInput {
    SnapshotInput(
      RequiredText(s, PACKAGE_ID), RequiredText(s, NETWORK), RequiredText(s, OBJECT_ID),
      RequiredText(s, POLICY_ID), RequiredText(s, POLICY_OBJECT_ID),
      TextField(s, PROJECT_ID), TextField(s, OWNER_ADDRESS), TextField(s, WALLET_ADDRESS),
      TextsOf(Field(s, SERVER_OBJECT_IDS)), TextField(s, CAPABILITY_TYPE))
  }

  function EncryptSnapshotOf(less: Order, e: Value): Snapshot {
    var stored := Field(e, ENCRYPT_POLICY_SNAPSHOT);
    CreateSnapshot(less, if stored.Undefined? then FallbackInput(e) else StoredInput(stored))
  }

  /** What the decrypt path of the storage layer computes from a payload: the policy comparison, or a refusal. */
  function OpenPayload(less: Order, network: Text, payload: Text, c: DecryptContext): Option<Comparison> {
    match Validate(Decode(payload))
    case Rejected(_) => None
    case Accepted(e) => Some(Compare(EncryptSnapshotOf(less, e), CreateSnapshot(less, DecryptInput(network, e, c))))
  }

  // ---------- Reading the envelope back ----------

  /** The position of a key in the list of members. */
  function EnvelopeRank(key: Text): int {
    if key == KIND then 0
    else if key == VERSION then 1
    else if key == SCHEMA_VERSION then 2
    else if key == ENVELOPE_VERSION then 3
    else if key == ALGORITHM then 4
    else if key == ENCODING then 5
    else if key == CREATED_AT then 6
    else if key == NETWORK then 7
    else if key == PACKAGE_ID then 8
    else if key == OBJECT_ID then 9
    else if key == THRESHOLD then 10
    else if key == SERVER_OBJECT_IDS then 11
    else if key == ENCRYPTED_OBJECT then 12
    else if key == PROJECT_ID then 13
    else if key == OWNER_ADDRESS then 14
    else if key == POLICY_ID then 15
    else if key == POLICY_OBJECT_ID then 16
    else if key == APPROVAL_POLICY then 17
    else if key == ENCRYPT_POLICY_SNAPSHOT then 18
    else -1
  }

  /** The position of a key in the list of members. */
  function SnapshotRank(key: Text): int {
    if key == PACKAGE_ID then 0
    else if key == NETWORK then 1
    else if key == OBJECT_ID then 2
    else if key == POLICY_ID then 3
    else if key == POLICY_OBJECT_ID then 4
    else if key == PROJECT_ID then 5
    else if key == OWNER_ADDRESS then 6
    else if key == SERVER_OBJECT_IDS then 7
    else if key == CAPABILITY_TYPE then 8
    else if key == WALLET_ADDRESS then 9
    else if key == RAW_POLICY_JSON then 10
    else if key == POLICY_HASH then 11
    else if key == NORMALIZED_POLICY_JSON then 12
    else -1
  }

  ghost predicate Ranked(ms: seq<Member>, rank: Text -> int, from: int) {
    forall i :: 0 <= i < |ms| ==> rank(ms[i].key) == from + i
  }

  lemma RankedKeysDistinct(ms: seq<Member>, rank: Text -> int)
    requires Ranked(ms, rank, 0)
    ensures DistinctKeys(ms)
  {
    forall i, j | 0 <= i < j < |ms| ensures ms[i].key != ms[j].key {
      assert rank(ms[i].key) != rank(ms[j].key);
    }
  }

  lemma HeadRanked(p: Parts)
    ensures Ranked(EnvelopeHead(p), EnvelopeRank, 0)
  {
    EnvelopeTags();
    PolicyTags();
  }

  lemma ScopeRanked(p: Parts)
    ensures Ranked(EnvelopeScope(p), EnvelopeRank, 7)
  {
    EnvelopeTags();
    PolicyTags();
  }

  lemma EnvelopePolicyRanked(p: Parts)
    ensures Ranked(EnvelopePolicy(p), EnvelopeRank, 15)
  {
    EnvelopeTags();
    PolicyTags();
  }

  lemma RankedAppend(a: seq<Member>, b: seq<Member>, rank: Text -> int, from: int)
    requires Ranked(a, rank, from) && Ranked(b, rank, from + |a|)
    ensures Ranked(a + b, rank, from)
  {
  }

  lemma EnvelopeKeysDistinct(p: Parts)
    ensures DistinctKeys(EnvelopeMembers(p))
  {
    HeadRanked(p);
    ScopeRanked(p);
    EnvelopePolicyRanked(p);
    RankedAppend(EnvelopeScope(p), EnvelopePolicy(p), EnvelopeRank, 7);
    RankedAppend(EnvelopeHead(p), EnvelopeInput(p), EnvelopeRank, 0);
    RankedKeysDistinct(EnvelopeMembers(p), EnvelopeRank);
  }

  lemma PolicyRanked(f: PolicyFields)
    ensures Ranked(PolicyMembers(f), SnapshotRank, 0)
  {
    PolicyTags();
  }

  lemma ExtrasRanked(s: Snapshot)
    ensures Ranked(SnapshotExtras(s), SnapshotRank, 9)
  {
    SnapshotTags();
    PolicyTags();
  }

  lemma SnapshotKeysDistinct(s: Snapshot)
    ensures DistinctKeys(SnapshotMembers(s))
  {
    PolicyRanked(s.fields);
    ExtrasRanked(s);
    RankedAppend(PolicyMembers(s.fields), SnapshotExtras(s), SnapshotRank, 0);
    RankedKeysDistinct(SnapshotMembers(s), SnapshotRank);
  }

  /** A stored object reads back field by field. */
  lemma StoredFields(ms: seq<Member>)
    requires DistinctKeys(ms)
    ensures forall i :: 0 <= i < |ms| ==> Field(Strip(Obj(ms)), ms[i].key) == Kept(ms[i].value)
  {
    forall i | 0 <= i < |ms| ensures Field(Strip(Obj(ms)), ms[i].key) == Kept(ms[i].value) {
      FindAt(ms, i);
      FindStripped(ms, ms[i].key);
    }
  }

  lemma TextItemsKept(ts: seq<Text>)
    ensures Strip(Arr(TextItems(ts))) == Arr(TextItems(ts))
    ensures TextArray(Arr(TextItems(ts))) && TextsOf(Arr(TextItems(ts))) == ts
  {
    StripDefined(Arr(TextItems(ts)));
  }

  lemma SnapshotWellFormed(s: Snapshot)
    ensures WellFormed(Obj(SnapshotMembers(s)))
  {
    SnapshotKeysDistinct(s);
    var a, b := PolicyMembers(s.fields), SnapshotExtras(s);
    assert forall i :: 0 <= i < |a| ==> WellFormed(a[i].value);
    assert forall i :: 0 <= i < |b| ==> WellFormed(b[i].value);
  }

  ghost predicate ReadsMembers(e: Value, ms: seq<Member>) {
    forall i :: 0 <= i < |ms| ==> Field(e, ms[i].key) == Kept(ms[i].value)
  }

  lemma AppendReadsBack(a: seq<Member>, b: seq<Member>)
    requires DistinctKeys(a + b)
    ensures ReadsMembers(Strip(Obj(a + b)), a) && ReadsMembers(Strip(Obj(a + b)), b)
  {
    StoredFields(a + b);
    assert forall i :: 0 <= i < |a| ==> (a + b)[i] == a[i];
    assert forall i :: 0 <= i < |b| ==> (a + b)[|a| + i] == b[i];
  }

  /** The input of `Restored`, read from the two halves of the stored snapshot. */
  lemma StoredInputReads(v: Value, s: Snapshot, a: seq<Member>, b: seq<Member>)
    requires a == PolicyMembers(s.fields) && b == SnapshotExtras(s) && ReadsMembers(v, a) && ReadsMembers(v, b)
    ensures StoredInput(v) == RestoredInput(s)
  {
    TextItemsKept(s.fields.serverObjectIds);
    assert a[0].key == PACKAGE_ID && a[1].key == NETWORK && a[2].key == OBJECT_ID && a[3].key == POLICY_ID;
    assert a[4].key == POLICY_OBJECT_ID && a[5].key == PROJECT_ID && a[6].key == OWNER_ADDRESS;
    assert a[7].key == SERVER_OBJECT_IDS && a[8].key == CAPABILITY_TYPE && b[0].key == WALLET_ADDRESS;
  }

  lemma StoredSnapshotReadsBack(s: Snapshot)
    ensures StoredInput(Strip(Obj(SnapshotMembers(s)))) == RestoredInput(s)
  {
    SnapshotKeysDistinct(s);
    AppendReadsBack(PolicyMembers(s.fields), SnapshotExtras(s));
    StoredInputReads(Strip(Obj(SnapshotMembers(s))), s, PolicyMembers(s.fields), SnapshotExtras(s));
  }

  ghost predicate ReadsHead(e: Value, p: Parts) {
    && Field(e, KIND) == REAL_SEAL_KIND && Field(e, VERSION) == ONE
    && Field(e, SCHEMA_VERSION) == ONE && Field(e, ENVELOPE_VERSION) == ONE
    && Field(e, ALGORITHM) == SEAL_ALGORITHM && Field(e, ENCODING) == BASE64
    && Field(e, CREATED_AT) == Str(p.createdAt)
  }

  ghost predicate ReadsInput(e: Value, p: Parts) {
    && Field(e, NETWORK) == Str(p.network)
    && Field(e, PACKAGE_ID) == Str(p.packageId) && Field(e, OBJECT_ID) == Str(p.objectId)
    && Field(e, THRESHOLD) == ONE
    && Field(e, SERVER_OBJECT_IDS) == Arr(TextItems(p.serverObjectIds))
    && Field(e, ENCRYPTED_OBJECT) == Str(p.encryptedObject)
    && Field(e, PROJECT_ID) == OptionalValue(p.projectId)
    && Field(e, OWNER_ADDRESS) == OptionalValue(p.ownerAddress)
    && Field(e, POLICY_ID) == Str(p.policyId) && Field(e, POLICY_OBJECT_ID) == Str(p.policyObjectId)
    && Field(e, APPROVAL_POLICY) == Str(p.policyId)
    && Field(e, ENCRYPT_POLICY_SNAPSHOT) == Strip(Obj(SnapshotMembers(p.snapshot)))
  }

  /** What property access finds in the envelope read from the stored text. */
  ghost predicate ReadsAs(e: Value, p: Parts) {
    e.Obj? && ReadsHead(e, p) && ReadsInput(e, p)
  }

  lemma HeadReadsBack(e: Value, p: Parts, ms: seq<Member>)
    requires ms == EnvelopeHead(p) && ReadsMembers(e, ms)
    ensures ReadsHead(e, p)
  {
    assert ms[0].key == KIND && ms[1].key == VERSION && ms[2].key == SCHEMA_VERSION && ms[3].key == ENVELOPE_VERSION;
    assert ms[4].key == ALGORITHM && ms[5].key == ENCODING && ms[6].key == CREATED_AT;
  }

  lemma InputReadsBack(e: Value, p: Parts, ms: seq<Member>)
    requires ms == EnvelopeInput(p) && ReadsMembers(e, ms)
    ensures ReadsInput(e, p)
  {
    TextItemsKept(p.serverObjectIds);
    assert ms[0].key == NETWORK && ms[1].key == PACKAGE_ID && ms[2].key == OBJECT_ID && ms[3].key == THRESHOLD;
    assert ms[4].key == SERVER_OBJECT_IDS && ms[5].key == ENCRYPTED_OBJECT && ms[6].key == PROJECT_ID;
    assert ms[7].key == OWNER_ADDRESS && ms[8].key == POLICY_ID && ms[9].key == POLICY_OBJECT_ID;
    assert ms[10].key == APPROVAL_POLICY && ms[11].key == ENCRYPT_POLICY_SNAPSHOT;
  }

  lemma EnvelopeReadsBack(p: Parts)
    ensures ReadsAs(Strip(Obj(EnvelopeMembers(p))), p)
  {
    EnvelopeKeysDistinct(p);
    AppendReadsBack(EnvelopeHead(p), EnvelopeInput(p));
    HeadReadsBack(Strip(Obj(EnvelopeMembers(p))), p, EnvelopeHead(p));
    InputReadsBack(Strip(Obj(EnvelopeMembers(p))), p, EnvelopeInput(p));
  }

  lemma EnvelopeWellFormed(p: Parts, ms: seq<Member>)
    requires ms == EnvelopeMembers(p)
    ensures WellFormed(Obj(ms))
  {
    EnvelopeKeysDistinct(p);
    SnapshotWellFormed(p.snapshot);
    var a, b := EnvelopeHead(p), EnvelopeInput(p);
    assert forall i :: 0 <= i < |a| ==> WellFormed(a[i].value);
    assert forall i :: 0 <= i < |b| ==> WellFormed(b[i].value);
    forall i | 0 <= i < |ms| ensures WellFormed(ms[i].value) {
      assert ms[i] == if i < |a| then a[i] else b[i - |a|];
    }
  }

  lemma ReadEnvelopeShaped(e: Value, p: Parts)
    requires ReadsAs(e, p)
    requires p.policyId == PROJECT_ADMIN || p.policyId == OWNER_WALLET
    requires p.network != [] && p.policyObjectId != []
    ensures Shape(e) && Complete(e)
  {
    assert Strip(Obj(SnapshotMembers(p.snapshot))).Obj?;
    assert p.policyId != [];
    TextItemsKept(p.serverObjectIds);
  }

  /** A well-made envelope is accepted as it is. */
  lemma ReadEnvelopeAccepted(e: Value, p: Parts)
    requires ReadsAs(e, p)
    requires p.policyId == PROJECT_ADMIN || p.policyId == OWNER_WALLET
    requires p.network != [] && p.packageId != [] && p.objectId != [] && p.policyObjectId != []
    requires p.encryptedObject != [] && p.serverObjectIds != []
    ensures Validate(Some(e)) == Accepted(e)
  {
    ReadEnvelopeShaped(e, p);
    CompletedSame(e);
    TextItemsKept(p.serverObjectIds);
    CheckersAgree(Some(e));
  }

  /** The stored text of an envelope decodes to a value with the same fields. */
  lemma StoredEnvelope(p: Parts)
    ensures var v := Decode(Stringify(Obj(EnvelopeMembers(p)))); v.Some? && ReadsAs(v.value, p)
  {
    var ms := EnvelopeMembers(p);
    EnvelopeWellFormed(p, ms);
    StringifyRoundTrip(Obj(ms));
    EnvelopeReadsBack(p);
  }

  /** An envelope without a network, package or ciphertext is refused. */
  lemma ReadEnvelopeRefused(e: Value, p: Parts)
    requires ReadsInput(e, p)
    requires p.network == [] || p.packageId == [] || p.encryptedObject == []
    ensures Validate(Some(e)).Rejected?
  {
    assert !HasRequiredFields(e);
  }

  // ---------- Main result ----------

  /** The decrypting side has the same policy: no scope beyond the envelope's, and the owner's own wallet. */
  predicate SameScope(c: EncryptContext, d: DecryptContext) {
    if NormalizeOptional(c.projectId).Some? then NormalizeOptional(d.ownerAddress).None?
    else if NormalizeOptional(c.ownerAddress).Some? then
      NormalizeOptional(d.projectId).None? && NormalizeOptional(d.walletAddress) == NormalizeOptional(c.ownerAddress)
    else NormalizeOptional(d.projectId).None? && NormalizeOptional(d.ownerAddress).None?
  }

  /** The stored snapshot is the one that `encrypt` made. */
  lemma EncryptSide(less: Order, e: Value, p: Parts, i: SnapshotInput)
    requires ReadsInput(e, p) && p.snapshot == CreateSnapshot(less, i)
    ensures EncryptSnapshotOf(less, e) == CreateSnapshot(less, i)
  {
    StoredSnapshotReadsBack(p.snapshot);
    RestoreIsIdentity(less, i);
    assert Strip(Obj(SnapshotMembers(p.snapshot))).Obj?;
  }

  /** The input of the decrypting side, in terms of the encrypting side's and the policy it selects. */
  function Derived(i: SnapshotInput, network: Text, d: DecryptContext, policyId: Text): SnapshotInput {
    SnapshotInput(
      i.packageId, network, i.objectId, policyId, Normalize(i.policyObjectId),
      NormalizeOptional(OrElse(i.projectId, d.projectId)), NormalizeOptional(OrElse(i.ownerAddress, d.ownerAddress)),
      d.walletAddress, i.serverObjectIds, Some(CapabilityType(policyId)))
  }

  /** An admin policy stays, and so does any policy without a project. */
  predicate PolicyKept(i: SnapshotInput, j: SnapshotInput) {
    i.policyId == PROJECT_ADMIN || j.projectId.None? ==> j.policyId == i.policyId
  }

  /** What the decrypting side derives from an envelope. */
  lemma DecryptSide(e: Value, p: Parts, i: SnapshotInput, network: Text, d: DecryptContext)
    requires ReadsInput(e, p)
    requires p.packageId == i.packageId && p.objectId == i.objectId && p.policyId == i.policyId
    requires p.policyObjectId == i.policyObjectId && p.projectId == i.projectId
    requires p.ownerAddress == i.ownerAddress && p.serverObjectIds == i.serverObjectIds
    ensures var j := DecryptInput(network, e, d); j == Derived(i, network, d, j.policyId) && PolicyKept(i, j)
  {
    TextItemsKept(p.serverObjectIds);
  }

  /** The two sides have one policy exactly when their networks and scopes agree. */
  lemma SidesAgree(cfg: Config, c: EncryptContext, network: Text, d: DecryptContext, objectId: Text, policyId: Text)
    ensures var i := EncryptInput(cfg, c, objectId);
            var j := Derived(i, network, d, policyId);
            PolicyKept(i, j) ==>
              (&& NormalFields(i) == NormalFields(j)
               && (NormalizeOptional(i.walletAddress).Some? ==>
                     NormalizeOptional(i.walletAddress) == NormalizeOptional(j.walletAddress))
               <==> network == cfg.network && SameScope(c, d))
  {
    NormalizeOptionalIdempotent(c.projectId);
    NormalizeOptionalIdempotent(c.ownerAddress);
    NormalizeOptionalIdempotent(d.projectId);
    NormalizeOptionalIdempotent(d.ownerAddress);
    NormalizeIdempotent(EncryptInput(cfg, c, objectId).policyObjectId);
  }

  lemma ObjectIdNonEmpty(c: EncryptContext, x: Supplied)
    requires EncryptObjectId(c, x).Success?
    ensures EncryptObjectId(c, x).value != []
  {
  }

  lemma OpenAccepted(less: Order, network: Text, payload: Text, e: Value, d: DecryptContext)
    requires Decode(payload) == Some(e)
    ensures OpenPayload(less, network, payload, d).Some? <==> Validate(Some(e)).Accepted?
    ensures Validate(Some(e)) == Accepted(e) ==>
              OpenPayload(less, network, payload, d) ==
              Some(Compare(EncryptSnapshotOf(less, e), CreateSnapshot(less, DecryptInput(network, e, d))))
  {
  }

  lemma OptionalNonEmpty(t: Option<Text>)
    ensures NormalizeOptional(t) != Some([])
  {
  }

  lemma EncryptInputOf(cfg: Config, c: EncryptContext, objectId: Text)
    requires objectId != []
    ensures EncryptInput(cfg, c, objectId).policyId in {PROJECT_ADMIN, OWNER_WALLET}
    ensures EncryptInput(cfg, c, objectId).policyObjectId != []
    ensures |EncryptInput(cfg, c, objectId).serverObjectIds| == 1
  {
    OptionalNonEmpty(c.projectId);
    OptionalNonEmpty(c.ownerAddress);
  }

  /** What the decrypting side makes of an envelope with the given parts. */
  lemma OpenEncrypted(less: Order, cfg: Config, c: EncryptContext, x: Supplied, objectId: Text, e: Value,
                      network: Text, d: DecryptContext)
    requires StrictTotal(less) && ReadsAs(e, EncryptParts(less, cfg, c, x, objectId))
    ensures Compare(EncryptSnapshotOf(less, e), CreateSnapshot(less, DecryptInput(network, e, d))).matches <==>
            network == cfg.network && SameScope(c, d)
  {
    var p := EncryptParts(less, cfg, c, x, objectId);
    var i, j := EncryptInput(cfg, c, objectId), DecryptInput(network, e, d);
    EncryptSide(less, e, p, i);
    DecryptSide(e, p, i, network, d);
    SidesAgree(cfg, c, network, d, objectId, j.policyId);
    MatchesExactly(less, i, j);
  }

  /** The main result for a stored text. */
  lemma OpenStored(less: Order, cfg: Config, c: EncryptContext, x: Supplied, network: Text, d: DecryptContext,
                   payload: Text, objectId: Text)
    requires StrictTotal(less)
    requires EncryptObjectId(c, x) == Success(objectId)
    requires payload == Stringify(Obj(EnvelopeMembers(EncryptParts(less, cfg, c, x, objectId))))
    ensures var r := OpenPayload(less, network, payload, d);
            && (r.Some? <==> cfg.network != [] && Normalize(cfg.packageId) != [] && x.ciphertext != [])
            && (r.Some? ==> (r.value.matches <==> network == cfg.network && SameScope(c, d)))
  {
    ObjectIdNonEmpty(c, x);
    var p := EncryptParts(less, cfg, c, x, objectId);
    EncryptInputOf(cfg, c, objectId);
    StoredEnvelope(p);
    var e := Decode(payload).value;
    OpenAccepted(less, network, payload, e, d);
    if cfg.network == [] || Normalize(cfg.packageId) == [] || x.ciphertext == [] {
      ReadEnvelopeRefused(e, p);
    } else {
      ReadEnvelopeAccepted(e, p);
      OpenEncrypted(less, cfg, c, x, objectId, e, network, d);
    }
  }

  /**
   An envelope made by `encrypt` and read back from its text is accepted exactly when it names a
   network and a package and has a ciphertext, and then the comparison says `matches` exactly when
   the decrypting build has the same network and the decrypting context the same scope.
   */
  lemma EncryptThenOpen(less: Order, cfg: Config, c: EncryptContext, x: Supplied, network: Text, d: DecryptContext)
    requires StrictTotal(less)
    ensures match Encrypt(less, cfg, c, x)
            case Failure => true
            case Success(payload) =>
              var r := OpenPayload(less, network, payload, d);
              && (r.Some? <==> cfg.network != [] && Normalize(cfg.packageId) != [] && x.ciphertext != [])
              && (r.Some? ==> (r.value.matches <==> network == cfg.network && SameScope(c, d)))
  {
    if Encrypt(less, cfg, c, x).Success? {
      OpenStored(less, cfg, c, x, network, d, Encrypt(less, cfg, c, x).value, EncryptObjectId(c, x).value);
    }
  }

  /** `encrypt` fails only when Seal is not configured or the scope in use has an odd number of digits. */
  lemma EncryptFails(less: Order, cfg: Config, c: EncryptContext, x: Supplied)
    ensures Encrypt(less, cfg, c, x).Failure? <==>
              || cfg.packageId == [] || cfg.serverObjectId == []
              || (var scope := OrElse(NormalizeOptional(c.projectId), NormalizeOptional(c.ownerAddress));
                  scope.Some? && |Digits(scope.value)| % 2 != 0)
  {
  }

  // ---------- What the stored envelope says ----------

  /** The id of an encrypted object: the scope's bytes and the nonce, or random bytes without a scope. */
  lemma ObjectIdBytes(c: EncryptContext, x: Supplied, scope: Option<Text>)
    requires scope == if NormalizeOptional(c.projectId).Some? then NormalizeOptional(c.projectId) else NormalizeOptional(c.ownerAddress)
    ensures scope.None? ==> EncryptObjectId(c, x).Success? && BytesOf(EncryptObjectId(c, x).value) == Success(x.random)
    ensures scope.Some? && EncryptObjectId(c, x).Success? ==>
              && BytesOf(scope.value).Success?
              && BytesOf(EncryptObjectId(c, x).value) == Success(BytesOf(scope.value).value + x.nonce)
  {
    HexRoundTrip(x.random);
    if scope.Some? && BytesOf(scope.value).Success? {
      HexRoundTrip(BytesOf(scope.value).value + x.nonce);
    }
  }

  ghost predicate SaysScope(e: Value, cfg: Config, x: Supplied, objectId: Text) {
    && Field(e, NETWORK) == Str(cfg.network)
    && Field(e, PACKAGE_ID) == Str(Normalize(cfg.packageId))
    && Field(e, OBJECT_ID) == Str(objectId)
    && Field(e, SERVER_OBJECT_IDS) == Arr([Str(Normalize(cfg.serverObjectId))])
    && Field(e, ENCRYPTED_OBJECT) == Str(x.ciphertext)
    && Field(e, CREATED_AT) == Str(x.createdAt)
  }

  /** A project's envelope is under the admin policy of the project, another under that of its owner or its object. */
  ghost predicate SaysPolicy(e: Value, project: Option<Text>, owner: Option<Text>, objectId: Text) {
    && Field(e, POLICY_ID) == Field(e, APPROVAL_POLICY)
    && Field(e, PROJECT_ID) == OptionalValue(project)
    && match (project, owner)
       case (Some(id), _) =>
         Field(e, POLICY_ID) == Str(PROJECT_ADMIN) && Field(e, POLICY_OBJECT_ID) == Str(id)
         && Field(e, OWNER_ADDRESS) == Undefined
       case (None, Some(id)) =>
         Field(e, POLICY_ID) == Str(OWNER_WALLET) && Field(e, POLICY_OBJECT_ID) == Str(id)
         && Field(e, OWNER_ADDRESS) == Str(id)
       case (None, None) =>
         Field(e, POLICY_ID) == Str(OWNER_WALLET) && Field(e, POLICY_OBJECT_ID) == Str(objectId)
         && Field(e, OWNER_ADDRESS) == Undefined
  }

  lemma ScopeRead(less: Order, cfg: Config, c: EncryptContext, x: Supplied, objectId: Text, e: Value, p: Parts)
    requires p == EncryptParts(less, cfg, c, x, objectId) && ReadsAs(e, p)
    ensures SaysScope(e, cfg, x, objectId)
  {
    OneTextItem(Normalize(cfg.serverObjectId));
  }

  lemma OneTextItem(t: Text)
    ensures TextItems([t]) == [Str(t)]
  {
  }

  lemma PolicyRead(less: Order, cfg: Config, c: EncryptContext, x: Supplied, objectId: Text, e: Value, p: Parts)
    requires p == EncryptParts(less, cfg, c, x, objectId) && ReadsAs(e, p)
    ensures SaysPolicy(e, NormalizeOptional(c.projectId), NormalizeOptional(c.ownerAddress), objectId)
  {
  }

  lemma EncryptedText(less: Order, cfg: Config, c: EncryptContext, x: Supplied, objectId: Text)
    requires Encrypt(less, cfg, c, x).Success? && EncryptObjectId(c, x) == Success(objectId)
    ensures var v := Decode(Encrypt(less, cfg, c, x).value);
            v.Some? && ReadsAs(v.value, EncryptParts(less, cfg, c, x, objectId))
  {
    StoredEnvelope(EncryptParts(less, cfg, c, x, objectId));
  }

  /**
   The stored text gives the network, package, object, single key server, ciphertext and time of the
   encryption, and the policy by which the scope is opened.
   */
  lemma EnvelopeSays(less: Order, cfg: Config, c: EncryptContext, x: Supplied, objectId: Text)
    requires Encrypt(less, cfg, c, x).Success? && EncryptObjectId(c, x) == Success(objectId)
    ensures var v := Decode(Encrypt(less, cfg, c, x).value);
            && v.Some? && SaysScope(v.value, cfg, x, objectId)
            && SaysPolicy(v.value, NormalizeOptional(c.projectId), NormalizeOptional(c.ownerAddress), objectId)
  {
    EncryptedText(less, cfg, c, x, objectId);
    var e := Decode(Encrypt(less, cfg, c, x).value).value;
    ScopeRead(less, cfg, c, x, objectId, e, EncryptParts(less, cfg, c, x, objectId));
    PolicyRead(less, cfg, c, x, objectId, e, EncryptParts(less, cfg, c, x, objectId));
  }

  /** The stored snapshot holds the texts and the wallet of the snapshot it was made from. */
  lemma StoredSnapshotSays(s: Snapshot)
    ensures var v := Strip(Obj(SnapshotMembers(s)));
            && Field(v, Ascii("rawPolicyJson")) == Str(s.rawPolicyJson)
            && Field(v, Ascii("policyHash")) == Str(s.policyHash)
            && Field(v, Ascii("normalizedPolicyJson")) == Str(s.normalizedPolicyJson)
            && TextField(v, Ascii("walletAddress")) == s.walletAddress
  {
    SnapshotKeysDistinct(s);
    var b := SnapshotExtras(s);
    AppendReadsBack(PolicyMembers(s.fields), b);
    assert b[0].key == WALLET_ADDRESS && b[1].key == RAW_POLICY_JSON;
    assert b[2].key == POLICY_HASH && b[3].key == NORMALIZED_POLICY_JSON;
  }

  // ---------- Envelopes made elsewhere ----------

  /** A known policy comes to the project's signal or admin policy, an unknown one follows the object id. */
  ghost predicate Follows(used: Text, stored: Text, objectId: Text, project: Text) {
    && (stored == PROJECT_SIGNAL || stored == SIGNAL_REVIEWER ==> used == PROJECT_SIGNAL)
    && (stored == PROJECT_ADMIN || stored == PROJECT_REVIEWER ==> used == PROJECT_ADMIN)
    && (!KnownPolicy(stored) ==> used in [PROJECT_SIGNAL, PROJECT_ADMIN])
    && (!KnownPolicy(stored) ==> (used == PROJECT_SIGNAL <==> IdMatches(objectId, project) == Success(true)))
  }

  lemma SelectionFollows(stored: Text, objectId: Text, project: Text)
    ensures Follows(SelectProjectPolicy(stored, objectId, project), stored, objectId, project)
  {
    KnownPolicySelected(objectId, project);
    if !KnownPolicy(stored) {
      UnknownPolicyFollowsScope(stored, project, [], objectId);
    }
  }

  /** The policy of the decrypting side: without a project the envelope's, with one the project's. */
  lemma DecryptPolicy(network: Text, e: Value, d: DecryptContext)
    ensures var (stored, used) := (RequiredText(e, APPROVAL_POLICY), DecryptInput(network, e, d).policyId);
            var project := NormalizeOptional(OrElse(TextField(e, PROJECT_ID), d.projectId));
            if project.None? then used == stored else Follows(used, stored, RequiredText(e, OBJECT_ID), project.value)
  {
    var project := NormalizeOptional(OrElse(TextField(e, PROJECT_ID), d.projectId));
    if project.Some? {
      SelectionFollows(RequiredText(e, APPROVAL_POLICY), RequiredText(e, OBJECT_ID), project.value);
    }
  }

  /** The decrypting context adds no scope of its own to one the envelope leaves out. */
  predicate NothingAdded(inEnvelope: Option<Text>, inContext: Option<Text>) {
    inEnvelope.Some? || NormalizeOptional(inContext).None?
  }

  lemma AddsNothingExactly(a: Option<Text>, b: Option<Text>)
    ensures NormalizeOptional(a) == NormalizeOptional(NormalizeOptional(OrElse(a, b))) <==> NothingAdded(a, b)
  {
    NormalizeOptionalIdempotent(OrElse(a, b));
  }

  /**
   For an envelope without a stored snapshot, the comparison matches exactly when the networks agree,
   the policy the decrypting side selects is the envelope's, its context adds no scope, and
   the envelope's owner, if it names one, is the decrypting wallet.
   */
  lemma FallbackMatchesExactly(less: Order, network: Text, e: Value, d: DecryptContext)
    requires StrictTotal(less) && Field(e, Ascii("encryptPolicySnapshot")).Undefined?
    ensures var (project, owner) := (TextField(e, Ascii("projectId")), TextField(e, Ascii("ownerAddress")));
            Compare(EncryptSnapshotOf(less, e), CreateSnapshot(less, DecryptInput(network, e, d))).matches <==>
              && RequiredText(e, Ascii("network")) == network
              && RequiredText(e, Ascii("policyId")) == DecryptInput(network, e, d).policyId
              && NothingAdded(project, d.projectId) && NothingAdded(owner, d.ownerAddress)
              && (NormalizeOptional(owner).Some? ==> NormalizeOptional(owner) == NormalizeOptional(d.walletAddress))
  {
    InputsMatchExactly(less, FallbackInput(e), DecryptInput(network, e, d));
    NormalizeIdempotent(RequiredText(e, POLICY_OBJECT_ID));
    AddsNothingExactly(TextField(e, PROJECT_ID), d.projectId);
    AddsNothingExactly(TextField(e, OWNER_ADDRESS), d.ownerAddress);
  }
}
