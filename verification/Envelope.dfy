/** The encrypted envelope and its two checkers. */
module Envelope {
  import opened Text
  import opened Json
  import opened Seal

  const KIND: Text := Ascii("kind")
  const VERSION: Text := Ascii("version")
  const SCHEMA_VERSION: Text := Ascii("schemaVersion")
  const ENVELOPE_VERSION: Text := Ascii("envelopeVersion")
  const ALGORITHM: Text := Ascii("algorithm")
  const ENCODING: Text := Ascii("encoding")
  const THRESHOLD: Text := Ascii("threshold")
  const ENCRYPTED_OBJECT: Text := Ascii("encryptedObject")
  const APPROVAL_POLICY: Text := Ascii("approvalPolicy")
  const ENCRYPT_POLICY_SNAPSHOT: Text := Ascii("encryptPolicySnapshot")
  const CREATED_AT: Text := Ascii("createdAt")
  const WALLET_ADDRESS: Text := Ascii("walletAddress")
  const RAW_POLICY_JSON: Text := Ascii("rawPolicyJson")
  const POLICY_HASH: Text := Ascii("policyHash")
  const NORMALIZED_POLICY_JSON: Text := Ascii("normalizedPolicyJson")

  const REAL_SEAL_KIND: Value := Str(Ascii("deepsignal.real-seal"))
  const SEAL_ALGORITHM: Value := Str(Ascii("@mysten/seal"))
  const BASE64: Value := Str(Ascii("base64"))
  const ONE: Value := Num([49])

  // ---------- The lenient checker ----------

  predicate OptionalText(v: Value) { v.Undefined? || v.Str? }

  predicate OptionalVersion(v: Value) { v.Undefined? || v == ONE }

  predicate OptionalPolicy(v: Value) {
    || v.Undefined? || v == Str(PROJECT_SIGNAL) || v == Str(PROJECT_ADMIN)
    || v == Str(SIGNAL_REVIEWER) || v == Str(PROJECT_REVIEWER) || v == Str(OWNER_WALLET)
  }

  predicate TextArray(v: Value) {
    v.Arr? && forall i :: 0 <= i < |v.items| ==> v.items[i].Str?
  }

  /** `a ?? b` */
  function Coalesce(a: Value, b: Value): Value {
    if a.Undefined? || a.Null? then b else a
  }

  predicate NonEmptyText(v: Value) { v.Str? && v.s != [] }

  /** The type checks of `parseRealSealEnvelope`. */
  predicate Shape(v: Value) {
    && Field(v, KIND) == REAL_SEAL_KIND
    && Field(v, VERSION) == ONE
    && OptionalVersion(Field(v, SCHEMA_VERSION))
    && OptionalVersion(Field(v, ENVELOPE_VERSION))
    && Field(v, ALGORITHM) == SEAL_ALGORITHM
    && Field(v, ENCODING) == BASE64
    && OptionalText(Field(v, NETWORK))
    && Field(v, PACKAGE_ID).Str?
    && Field(v, OBJECT_ID).Str?
    && Field(v, THRESHOLD).Num?
    && TextArray(Field(v, SERVER_OBJECT_IDS))
    && Field(v, ENCRYPTED_OBJECT).Str?
    && OptionalPolicy(Field(v, POLICY_ID))
    && OptionalText(Field(v, POLICY_OBJECT_ID))
    && OptionalText(Field(v, PROJECT_ID))
    && OptionalText(Field(v, OWNER_ADDRESS))
    && OptionalPolicy(Field(v, APPROVAL_POLICY))
    && (var s := Field(v, ENCRYPT_POLICY_SNAPSHOT); s.Undefined? || s.Arr? || s.Obj?)
    && Field(v, CREATED_AT).Str?
  }

  function EffectivePolicyId(v: Value): Value {
    Coalesce(Field(v, POLICY_ID), Field(v, APPROVAL_POLICY))
  }

  function EffectivePolicyObjectId(v: Value): Value {
    Coalesce(Field(v, POLICY_OBJECT_ID),
             Coalesce(Field(v, PROJECT_ID), Coalesce(Field(v, OWNER_ADDRESS), Field(v, OBJECT_ID))))
  }

  function EffectiveNetwork(v: Value): Value {
    Coalesce(Field(v, NETWORK), Str([]))
  }

  /** The normalised copy `parseRealSealEnvelope` returns. */
  function Completed(v: Value): Value
    requires v.Obj?
  {
    var version := Field(v, VERSION);
    var ms := SetField(v.members, SCHEMA_VERSION, Coalesce(Field(v, SCHEMA_VERSION), version));
    var ms := SetField(ms, ENVELOPE_VERSION, Coalesce(Field(v, ENVELOPE_VERSION), version));
    var ms := SetField(ms, NETWORK, EffectiveNetwork(v));
    var ms := SetField(ms, POLICY_ID, EffectivePolicyId(v));
    var ms := SetField(ms, POLICY_OBJECT_ID, EffectivePolicyObjectId(v));
    Obj(SetField(ms, APPROVAL_POLICY, Coalesce(Field(v, APPROVAL_POLICY), EffectivePolicyId(v))))
  }

  /** `parseRealSealEnvelope` on the parsed text; property access on `null` throws and counts as a refusal. */
  function ParseEnvelope(v: Value): Option<Value> {
    if v.Obj? && Shape(v)
       && NonEmptyText(EffectivePolicyId(v))
       && NonEmptyText(EffectivePolicyObjectId(v))
       && NonEmptyText(EffectiveNetwork(v))
    then Some(Completed(v))
    else None
  }

  // ---------- The strict checker ----------

  datatype ReasonCode = ManifestMismatch | PolicyMismatch

  datatype Verdict = Accepted(envelope: Value) | Rejected(reason: ReasonCode)

  /** The first text among the candidates, `null` if there is none. */
  function FirstText(a: Value, b: Value): Value {
    if a.Str? then a else if b.Str? then b else Null
  }

  function FirstNumber(a: Value, b: Value): Value {
    if a.Num? then a else if b.Num? then b else Null
  }

  predicate HasRequiredFields(c: Value) {
    && Field(c, KIND) == REAL_SEAL_KIND
    && FirstNumber(Field(c, SCHEMA_VERSION), Field(c, VERSION)) == ONE
    && FirstNumber(Field(c, ENVELOPE_VERSION), Field(c, VERSION)) == ONE
    && Field(c, ALGORITHM) == SEAL_ALGORITHM
    && Field(c, ENCODING) == BASE64
    && NonEmptyText(Field(c, NETWORK))
    && NonEmptyText(Field(c, PACKAGE_ID))
    && NonEmptyText(Field(c, OBJECT_ID))
    && NonEmptyText(Field(c, ENCRYPTED_OBJECT))
    && (Field(c, SERVER_OBJECT_IDS).Arr? && Field(c, SERVER_OBJECT_IDS).items != [])
    && NonEmptyText(FirstText(Field(c, POLICY_ID), Field(c, APPROVAL_POLICY)))
    && NonEmptyText(FirstText(Field(c, POLICY_OBJECT_ID),
                              FirstText(Field(c, PROJECT_ID), FirstText(Field(c, OWNER_ADDRESS), Field(c, OBJECT_ID)))))
  }

  /** `validateEncryptedPayloadOrThrow`; `None` is a text that is not JSON. */
  function Validate(parsed: Option<Value>): Verdict {
    if parsed.None? || !(parsed.value.Obj? || parsed.value.Arr?) then Rejected(ManifestMismatch)
    else
      var c := parsed.value;
      var envelope := ParseEnvelope(c);
      if !HasRequiredFields(c) || envelope.None? then
        Rejected(if NonEmptyText(FirstText(Field(c, POLICY_ID), Field(c, APPROVAL_POLICY))) then ManifestMismatch
                 else PolicyMismatch)
      else Accepted(envelope.value)
  }

  /**
   The checkers agree: the strict one accepts exactly what the lenient one accepts with four
   non-empty fields, and then returns the same envelope.
   */
  lemma CheckersAgree(parsed: Option<Value>)
    ensures Validate(parsed).Accepted? <==>
              && parsed.Some? && ParseEnvelope(parsed.value).Some?
              && NonEmptyText(Field(parsed.value, PACKAGE_ID))
              && NonEmptyText(Field(parsed.value, OBJECT_ID))
              && NonEmptyText(Field(parsed.value, ENCRYPTED_OBJECT))
              && Field(parsed.value, SERVER_OBJECT_IDS) != Arr([])
    ensures Validate(parsed).Accepted? ==> Some(Validate(parsed).envelope) == ParseEnvelope(parsed.value)
  {
    if parsed.Some? && ParseEnvelope(parsed.value).Some? {
      var c := parsed.value;
      assert EffectivePolicyId(c) == FirstText(Field(c, POLICY_ID), Field(c, APPROVAL_POLICY));
    }
  }

  // ---------- What is accepted ----------

  /** One of the five policies. */
  predicate PolicyNamed(v: Value) {
    || v == Str(Ascii("project_signal_v1")) || v == Str(Ascii("project_admin_v0"))
    || v == Str(Ascii("project_signal_reviewer_v1")) || v == Str(Ascii("project_reviewer_v0"))
    || v == Str(Ascii("owner_wallet_v1"))
  }

  predicate OptionalOne(v: Value) { v.Undefined? || v == Num(Ascii("1")) }

  predicate OptionalString(v: Value) { v.Undefined? || v.Str? }

  /** The stored constants, and the types of the ciphertext's fields. */
  ghost predicate HoldsSealed(v: Value) {
    && Field(v, Ascii("kind")) == Str(Ascii("deepsignal.real-seal")) && Field(v, Ascii("version")) == Num(Ascii("1"))
    && Field(v, Ascii("algorithm")) == Str(Ascii("@mysten/seal")) && Field(v, Ascii("encoding")) == Str(Ascii("base64"))
    && OptionalOne(Field(v, Ascii("schemaVersion"))) && OptionalOne(Field(v, Ascii("envelopeVersion")))
    && Field(v, Ascii("packageId")).Str? && Field(v, Ascii("objectId")).Str?
    && Field(v, Ascii("encryptedObject")).Str? && Field(v, Ascii("createdAt")).Str?
    && Field(v, Ascii("threshold")).Num?
    && var ids := Field(v, Ascii("serverObjectIds"));
       ids.Arr? && forall i :: 0 <= i < |ids.items| ==> ids.items[i].Str?
  }

  /** A known policy by either name, and by both if both are there; the types of the policy's fields. */
  ghost predicate HoldsPolicy(v: Value) {
    var id, approval, snapshot :=
      Field(v, Ascii("policyId")), Field(v, Ascii("approvalPolicy")), Field(v, Ascii("encryptPolicySnapshot"));
    && (PolicyNamed(id) || PolicyNamed(approval))
    && (!id.Undefined? ==> PolicyNamed(id)) && (!approval.Undefined? ==> PolicyNamed(approval))
    && OptionalString(Field(v, Ascii("policyObjectId"))) && OptionalString(Field(v, Ascii("projectId")))
    && OptionalString(Field(v, Ascii("ownerAddress")))
    && (snapshot.Undefined? || snapshot.Arr? || snapshot.Obj?)
  }

  /** The network, and the first that is there of policy object, project, owner and object id, are not empty. */
  ghost predicate HoldsNames(v: Value) {
    var policyObject, project, owner :=
      Field(v, Ascii("policyObjectId")), Field(v, Ascii("projectId")), Field(v, Ascii("ownerAddress"));
    && NonEmptyText(Field(v, Ascii("network")))
    && if !policyObject.Undefined? then NonEmptyText(policyObject)
       else if !project.Undefined? then NonEmptyText(project)
       else if !owner.Undefined? then NonEmptyText(owner)
       else NonEmptyText(Field(v, Ascii("objectId")))
  }

  lemma SealedShape(v: Value)
    requires HoldsPolicy(v) && HoldsNames(v)
    ensures HoldsSealed(v) <==> Shape(v)
  {
    assert ONE == Num(Ascii("1"));
  }

  lemma ShapeNames(v: Value)
    requires Shape(v)
    ensures NonEmptyText(EffectivePolicyId(v)) <==> HoldsPolicy(v)
    ensures NonEmptyText(EffectivePolicyObjectId(v)) && NonEmptyText(EffectiveNetwork(v)) <==> HoldsNames(v)
  {
    assert |PROJECT_SIGNAL| > 0 && |PROJECT_ADMIN| > 0 && |SIGNAL_REVIEWER| > 0 && |PROJECT_REVIEWER| > 0 && |OWNER_WALLET| > 0;
  }

  /** An envelope is accepted exactly when it is an object with all of this, by the names that are stored. */
  lemma AcceptedExactly(v: Value)
    ensures ParseEnvelope(v).Some? <==> v.Obj? && HoldsSealed(v) && HoldsPolicy(v) && HoldsNames(v)
  {
    if Shape(v) {
      ShapeNames(v);
    }
    if HoldsPolicy(v) && HoldsNames(v) {
      SealedShape(v);
    }
  }

  /** A refusal blames the policy exactly when a JSON object or array names no policy, and the manifest otherwise. */
  lemma RefusedFor(parsed: Option<Value>)
    requires Validate(parsed).Rejected?
    ensures Validate(parsed).reason == PolicyMismatch <==>
              && parsed.Some? && (parsed.value.Obj? || parsed.value.Arr?)
              && var id, approval := Field(parsed.value, Ascii("policyId")), Field(parsed.value, Ascii("approvalPolicy"));
                 if id.Str? then id.s == [] else !NonEmptyText(approval)
  {
  }

  /** The id a policy applies to: the stored one, else project, owner or object. */
  lemma PolicyObjectFallsBack(v: Value)
    requires ParseEnvelope(v).Some?
    ensures var e := ParseEnvelope(v).value; var id := Field(e, POLICY_OBJECT_ID);
            if Field(v, POLICY_OBJECT_ID).Str? then id == Field(v, POLICY_OBJECT_ID)
            else if Field(v, PROJECT_ID).Str? then id == Field(v, PROJECT_ID)
            else if Field(v, OWNER_ADDRESS).Str? then id == Field(v, OWNER_ADDRESS)
            else id == Field(v, OBJECT_ID)
  {
    CompletedFields(v, POLICY_OBJECT_ID);
    EnvelopeTags();
    PolicyTags();
  }

  // ---------- Keys ----------

  lemma EnvelopeTags()
    ensures Tag(KIND) == (4, 'k' as int, 'i' as int, 'd' as int)
    ensures Tag(VERSION) == (7, 'v' as int, 'e' as int, 'n' as int)
    ensures Tag(SCHEMA_VERSION) == (13, 's' as int, 'c' as int, 'n' as int)
    ensures Tag(ENVELOPE_VERSION) == (15, 'e' as int, 'n' as int, 'n' as int)
    ensures Tag(ALGORITHM) == (9, 'a' as int, 'l' as int, 'm' as int)
    ensures Tag(ENCODING) == (8, 'e' as int, 'n' as int, 'g' as int)
    ensures Tag(THRESHOLD) == (9, 't' as int, 'h' as int, 'd' as int)
    ensures Tag(ENCRYPTED_OBJECT) == (15, 'e' as int, 'n' as int, 't' as int)
    ensures Tag(APPROVAL_POLICY) == (14, 'a' as int, 'p' as int, 'y' as int)
    ensures Tag(ENCRYPT_POLICY_SNAPSHOT) == (21, 'e' as int, 'n' as int, 't' as int)
    ensures Tag(CREATED_AT) == (9, 'c' as int, 'r' as int, 't' as int)
  {
  }

  lemma SnapshotTags()
    ensures Tag(WALLET_ADDRESS) == (13, 'w' as int, 'a' as int, 's' as int)
    ensures Tag(RAW_POLICY_JSON) == (13, 'r' as int, 'a' as int, 'n' as int)
    ensures Tag(POLICY_HASH) == (10, 'p' as int, 'o' as int, 'h' as int)
    ensures Tag(NORMALIZED_POLICY_JSON) == (20, 'n' as int, 'o' as int, 'n' as int)
  {
  }

  lemma PolicyTags()
    ensures Tag(PACKAGE_ID) == (9, 'p' as int, 'a' as int, 'd' as int)
    ensures Tag(NETWORK) == (7, 'n' as int, 'e' as int, 'k' as int)
    ensures Tag(OBJECT_ID) == (8, 'o' as int, 'b' as int, 'd' as int)
    ensures Tag(POLICY_ID) == (8, 'p' as int, 'o' as int, 'd' as int)
    ensures Tag(POLICY_OBJECT_ID) == (14, 'p' as int, 'o' as int, 'd' as int)
    ensures Tag(PROJECT_ID) == (9, 'p' as int, 'r' as int, 'd' as int)
    ensures Tag(OWNER_ADDRESS) == (12, 'o' as int, 'w' as int, 's' as int)
    ensures Tag(SERVER_OBJECT_IDS) == (15, 's' as int, 'e' as int, 's' as int)
    ensures Tag(CAPABILITY_TYPE) == (14, 'c' as int, 'a' as int, 'e' as int)
  {
  }

  // ---------- Printing and reading again ----------

  /** What property access finds in the completed envelope. */
  lemma CompletedFields(v: Value, key: Text)
    requires v.Obj?
    ensures Field(Completed(v), key) ==
            if key == APPROVAL_POLICY then Coalesce(Field(v, APPROVAL_POLICY), EffectivePolicyId(v))
            else if key == POLICY_OBJECT_ID then EffectivePolicyObjectId(v)
            else if key == POLICY_ID then EffectivePolicyId(v)
            else if key == NETWORK then EffectiveNetwork(v)
            else if key == ENVELOPE_VERSION then Coalesce(Field(v, ENVELOPE_VERSION), Field(v, VERSION))
            else if key == SCHEMA_VERSION then Coalesce(Field(v, SCHEMA_VERSION), Field(v, VERSION))
            else Field(v, key)
  {
    var version := Field(v, VERSION);
    var m0 := v.members;
    SetFieldFind(m0, SCHEMA_VERSION, Coalesce(Field(v, SCHEMA_VERSION), version), key);
    var m1 := SetField(m0, SCHEMA_VERSION, Coalesce(Field(v, SCHEMA_VERSION), version));
    SetFieldFind(m1, ENVELOPE_VERSION, Coalesce(Field(v, ENVELOPE_VERSION), version), key);
    var m2 := SetField(m1, ENVELOPE_VERSION, Coalesce(Field(v, ENVELOPE_VERSION), version));
    SetFieldFind(m2, NETWORK, EffectiveNetwork(v), key);
    var m3 := SetField(m2, NETWORK, EffectiveNetwork(v));
    SetFieldFind(m3, POLICY_ID, EffectivePolicyId(v), key);
    var m4 := SetField(m3, POLICY_ID, EffectivePolicyId(v));
    SetFieldFind(m4, POLICY_OBJECT_ID, EffectivePolicyObjectId(v), key);
    var m5 := SetField(m4, POLICY_OBJECT_ID, EffectivePolicyObjectId(v));
    SetFieldFind(m5, APPROVAL_POLICY, Coalesce(Field(v, APPROVAL_POLICY), EffectivePolicyId(v)), key);
  }

  /** The six completed fields are all there. */
  predicate Complete(v: Value) {
    && !Field(v, SCHEMA_VERSION).Undefined? && !Field(v, SCHEMA_VERSION).Null?
    && !Field(v, ENVELOPE_VERSION).Undefined? && !Field(v, ENVELOPE_VERSION).Null?
    && Field(v, NETWORK).Str?
    && Field(v, POLICY_ID).Str?
    && Field(v, POLICY_OBJECT_ID).Str?
    && Field(v, APPROVAL_POLICY).Str?
  }

  /** A complete envelope is left as it is. */
  lemma CompletedSame(v: Value)
    requires v.Obj? && Complete(v)
    ensures Completed(v) == v
  {
    SetFieldSame(v.members, SCHEMA_VERSION, Field(v, SCHEMA_VERSION));
    SetFieldSame(v.members, ENVELOPE_VERSION, Field(v, ENVELOPE_VERSION));
    SetFieldSame(v.members, NETWORK, Field(v, NETWORK));
    SetFieldSame(v.members, POLICY_ID, Field(v, POLICY_ID));
    SetFieldSame(v.members, POLICY_OBJECT_ID, Field(v, POLICY_OBJECT_ID));
    SetFieldSame(v.members, APPROVAL_POLICY, Field(v, APPROVAL_POLICY));
  }

  lemma CompletedDefined(v: Value)
    requires v.Obj? && Defined(v) && ParseEnvelope(v).Some?
    ensures Defined(Completed(v))
  {
    var version := Field(v, VERSION);
    var m0 := v.members;
    SetFieldDefined(m0, SCHEMA_VERSION, Coalesce(Field(v, SCHEMA_VERSION), version));
    var m1 := SetField(m0, SCHEMA_VERSION, Coalesce(Field(v, SCHEMA_VERSION), version));
    SetFieldDefined(m1, ENVELOPE_VERSION, Coalesce(Field(v, ENVELOPE_VERSION), version));
    var m2 := SetField(m1, ENVELOPE_VERSION, Coalesce(Field(v, ENVELOPE_VERSION), version));
    SetFieldDefined(m2, NETWORK, EffectiveNetwork(v));
    var m3 := SetField(m2, NETWORK, EffectiveNetwork(v));
    SetFieldDefined(m3, POLICY_ID, EffectivePolicyId(v));
    var m4 := SetField(m3, POLICY_ID, EffectivePolicyId(v));
    SetFieldDefined(m4, POLICY_OBJECT_ID, EffectivePolicyObjectId(v));
    var m5 := SetField(m4, POLICY_OBJECT_ID, EffectivePolicyObjectId(v));
    SetFieldDefined(m5, APPROVAL_POLICY, Coalesce(Field(v, APPROVAL_POLICY), EffectivePolicyId(v)));
  }

  lemma CompletedIsComplete(v: Value)
    requires v.Obj? && ParseEnvelope(v).Some?
    ensures Complete(Completed(v))
    ensures Field(Completed(v), SCHEMA_VERSION) == ONE && Field(Completed(v), ENVELOPE_VERSION) == ONE
    ensures NonEmptyText(Field(Completed(v), NETWORK)) && NonEmptyText(Field(Completed(v), POLICY_OBJECT_ID))
    ensures OptionalPolicy(Field(Completed(v), POLICY_ID)) && OptionalPolicy(Field(Completed(v), APPROVAL_POLICY))
    ensures NonEmptyText(Field(Completed(v), POLICY_ID))
  {
    EnvelopeTags();
    PolicyTags();
    CompletedFields(v, SCHEMA_VERSION);
    CompletedFields(v, ENVELOPE_VERSION);
    CompletedFields(v, NETWORK);
    CompletedFields(v, POLICY_ID);
    CompletedFields(v, POLICY_OBJECT_ID);
    CompletedFields(v, APPROVAL_POLICY);
  }

  predicate CompletedKey(key: Text) {
    || key == SCHEMA_VERSION || key == ENVELOPE_VERSION || key == NETWORK
    || key == POLICY_ID || key == POLICY_OBJECT_ID || key == APPROVAL_POLICY
  }

  lemma OtherKeys()
    ensures !CompletedKey(KIND) && !CompletedKey(VERSION) && !CompletedKey(ALGORITHM) && !CompletedKey(ENCODING)
    ensures !CompletedKey(PACKAGE_ID) && !CompletedKey(OBJECT_ID) && !CompletedKey(THRESHOLD)
    ensures !CompletedKey(SERVER_OBJECT_IDS) && !CompletedKey(ENCRYPTED_OBJECT) && !CompletedKey(PROJECT_ID)
    ensures !CompletedKey(OWNER_ADDRESS) && !CompletedKey(ENCRYPT_POLICY_SNAPSHOT) && !CompletedKey(CREATED_AT)
  {
    EnvelopeTags();
    PolicyTags();
  }

  /** Parsing an accepted envelope again leaves it as it is. */
  lemma ParseIdempotent(v: Value)
    requires v.Obj? && ParseEnvelope(v).Some?
    ensures ParseEnvelope(Completed(v)) == Some(Completed(v))
  {
    var e := Completed(v);
    CompletedIsComplete(v);
    CompletedSame(e);
    OtherKeys();
    forall key | !CompletedKey(key) ensures Field(e, key) == Field(v, key) {
      CompletedFields(v, key);
    }
    assert Shape(e);
  }

  /** Printing an accepted envelope and parsing it again gives the same envelope. */
  lemma EnvelopeRoundTrip(v: Value)
    requires Defined(v) && ParseEnvelope(v).Some?
    ensures var e := ParseEnvelope(v).value;
            Decode(Stringify(e)) == Some(e) && ParseEnvelope(e) == Some(e)
  {
    var e := ParseEnvelope(v).value;
    CompletedDefined(v);
    ParseIdempotent(v);
    StripDefined(e);
    ValueRoundTrip(e, []);
  }
}
