/** Provider keys and their secrets: create, rotate, revoke, resolve. A key names one secret; secrets are never
    deleted, only moved on to rotated or revoked. What is sealed into a secret node appears here opened. */
module KeyLifecycle {
  import opened Prelude
  import opened Text

  datatype KeyStatus = KeyActive | KeyRevoked

  datatype SecretStatus = SecretActive | SecretRotated | SecretRevoked

  datatype Details = Details(aclMode: string, text: string)

  datatype Node =
    | KeyNode(status: KeyStatus, activeSecretRef: Option<string>, details: Details)
    | SecretNode(keyId: string, secretStatus: SecretStatus, providerSecret: string, expires: Option<nat>)
    | OtherNode(text: string)

  datatype KeyError =
    | KeyIdMustStartWithKeyColon | ProviderSecretRequired | UnsupportedAclMode | ModelKeyAlreadyExists | ModelKeyNotFound | ModelKeyRevoked
    | SecretPayloadNotFound | SecretNotActive(status: SecretStatus) | SecretPayloadExpired | ProviderSecretMissing

  predicate StartsWith(s: string, prefix: string) { |prefix| <= |s| && s[..|prefix|] == prefix }

  predicate SupportedAclMode(mode: string) { mode in {"private", "shared", "scope", "group", "public"} }

  // The last part counts the nodes, so it never repeats.
  function SecretRef(keyId: string, now: nat, count: nat): string { "secret:" + keyId + ":" + Decimal(now) + ":" + Decimal(count) }

  function NewRef(nodes: map<string, Node>, keyId: string, now: nat): string { SecretRef(keyId, now, |nodes| + 1) }

  // --- what each operation does to the nodes ------------------------------------------------------------------

  function WithSecret(nodes: map<string, Node>, keyId: string, secret: string, expires: Option<nat>, now: nat): map<string, Node> {
    nodes[NewRef(nodes, keyId, now) := SecretNode(keyId, SecretActive, secret, expires)]
  }

  function Created(nodes: map<string, Node>, keyId: string, details: Details, secret: string, expires: Option<nat>, now: nat): map<string, Node> {
    WithSecret(nodes, keyId, secret, expires, now)[keyId := KeyNode(KeyActive, Some(NewRef(nodes, keyId, now)), details)]
  }

  // The old secret, if its node exists, gets a new status.
  function Retire(nodes: map<string, Node>, old_: Option<string>, status: SecretStatus): map<string, Node> {
    if old_.Some? && old_.value in nodes && nodes[old_.value].SecretNode?
    then nodes[old_.value := nodes[old_.value].(secretStatus := status)] else nodes
  }

  function Rotated(nodes: map<string, Node>, keyId: string, secret: string, expires: Option<nat>, now: nat): map<string, Node>
    requires keyId in nodes && nodes[keyId].KeyNode?
  {
    var key := nodes[keyId];
    Retire(WithSecret(nodes, keyId, secret, expires, now)[keyId := key.(activeSecretRef := Some(NewRef(nodes, keyId, now)))],
           key.activeSecretRef, SecretRotated)
  }

  function Revoked(nodes: map<string, Node>, keyId: string): map<string, Node>
    requires keyId in nodes && nodes[keyId].KeyNode?
  {
    Retire(nodes[keyId := nodes[keyId].(status := KeyRevoked)], nodes[keyId].activeSecretRef, SecretRevoked)
  }

  function Resolved(nodes: map<string, Node>, ref: string, now: nat): Result<string, KeyError> {
    if ref !in nodes || !nodes[ref].SecretNode? then Err(SecretPayloadNotFound)
    else if nodes[ref].secretStatus != SecretActive then Err(SecretNotActive(nodes[ref].secretStatus))
    else if nodes[ref].expires.Some? && nodes[ref].expires.value < now then Err(SecretPayloadExpired)
    else if nodes[ref].providerSecret == "" then Err(ProviderSecretMissing)
    else Ok(nodes[ref].providerSecret)
  }

  // --- the manager -------------------------------------------------------------------------------------------

  class KeyManager {
    var nodes: map<string, Node>

    constructor ()
      ensures nodes == map[]
    {
      nodes := map[];
    }

    method CreateSecretPayload(keyId: string, secret: string, expires: Option<nat>, now: nat) returns (ref: string)
      modifies this
      ensures ref == NewRef(old(nodes), keyId, now) && nodes == WithSecret(old(nodes), keyId, secret, expires, now)
    {
      ref := SecretRef(keyId, now, |nodes| + 1);
      nodes := nodes[ref := SecretNode(keyId, SecretActive, secret, expires)];
    }

    method CreateKey(keyId: string, details: Details, secret: string, expires: Option<nat>, now: nat) returns (r: Result<string, KeyError>)
      modifies this
      ensures r == if !StartsWith(keyId, "key:") then Err(KeyIdMustStartWithKeyColon)
                   else if secret == "" then Err(ProviderSecretRequired)
                   else if !SupportedAclMode(details.aclMode) then Err(UnsupportedAclMode)
                   else if keyId in old(nodes) then Err(ModelKeyAlreadyExists)
                   else Ok(NewRef(old(nodes), keyId, now))
      ensures nodes == if r.Ok? then Created(old(nodes), keyId, details, secret, expires, now) else old(nodes)
    {
      hide NewRef, SecretRef;
      if !StartsWith(keyId, "key:") { return Err(KeyIdMustStartWithKeyColon); }
      if secret == "" { return Err(ProviderSecretRequired); }
      if !SupportedAclMode(details.aclMode) { return Err(UnsupportedAclMode); }
      if keyId in nodes { return Err(ModelKeyAlreadyExists); }
      var ref := CreateSecretPayload(keyId, secret, expires, now);
      nodes := nodes[keyId := KeyNode(KeyActive, Some(ref), details)];
      return Ok(ref);
    }

    method RotateKey(keyId: string, secret: string, expires: Option<nat>, now: nat) returns (r: Result<string, KeyError>)
      modifies this
      ensures r == if keyId !in old(nodes) || !old(nodes)[keyId].KeyNode? then Err(ModelKeyNotFound)
                   else if old(nodes)[keyId].status == KeyRevoked then Err(ModelKeyRevoked)
                   else Ok(NewRef(old(nodes), keyId, now))
      ensures if r.Ok? then nodes == Rotated(old(nodes), keyId, secret, expires, now) else nodes == old(nodes)
    {
      hide NewRef, SecretRef;
      if keyId !in nodes || !nodes[keyId].KeyNode? { return Err(ModelKeyNotFound); }
      var key := nodes[keyId];
      if key.status == KeyRevoked { return Err(ModelKeyRevoked); }
      var previous := key.activeSecretRef;
      var ref := CreateSecretPayload(keyId, secret, expires, now);
      nodes := nodes[keyId := key.(activeSecretRef := Some(ref))];
      if previous.Some? && previous.value in nodes && nodes[previous.value].SecretNode? {
        nodes := nodes[previous.value := nodes[previous.value].(secretStatus := SecretRotated)];
      }
      return Ok(ref);
    }

    method RevokeKey(keyId: string) returns (r: Result<(), KeyError>)
      modifies this
      ensures r == if keyId !in old(nodes) || !old(nodes)[keyId].KeyNode? then Err(ModelKeyNotFound) else Ok(())
      ensures if r.Ok? then nodes == Revoked(old(nodes), keyId) else nodes == old(nodes)
    {
      if keyId !in nodes || !nodes[keyId].KeyNode? { return Err(ModelKeyNotFound); }
      var key := nodes[keyId].(status := KeyRevoked);
      nodes := nodes[keyId := key];
      var ref := key.activeSecretRef;
      if ref.Some? && ref.value in nodes && nodes[ref.value].SecretNode? {
        nodes := nodes[ref.value := nodes[ref.value].(secretStatus := SecretRevoked)];
      }
      return Ok(());
    }

    method ResolveProviderSecret(ref: string, now: nat) returns (r: Result<string, KeyError>)
      ensures r == Resolved(nodes, ref, now)
      ensures r.Ok? <==> ref in nodes && nodes[ref].SecretNode? && nodes[ref].secretStatus == SecretActive
                         && !(nodes[ref].expires.Some? && nodes[ref].expires.value < now) && nodes[ref].providerSecret != ""
      ensures r.Ok? ==> r.value == nodes[ref].providerSecret
    {
      if ref !in nodes || !nodes[ref].SecretNode? { return Err(SecretPayloadNotFound); }
      var secret := nodes[ref];
      if secret.secretStatus != SecretActive { return Err(SecretNotActive(secret.secretStatus)); }
      if secret.expires.Some? && secret.expires.value < now { return Err(SecretPayloadExpired); }
      if secret.providerSecret == "" { return Err(ProviderSecretMissing); }
      return Ok(secret.providerSecret);
    }
  }
}

/** What holds after any run of key operations, with other nodes written in between. */
module KeyRuns {
  import opened Prelude
  import opened Text
  import opened KeyLifecycle

  datatype Op =
    | Create(keyId: string, details: Details, secret: string, expires: Option<nat>, now: nat)
    | Rotate(keyId: string, secret: string, expires: Option<nat>, now: nat)
    | Revoke(keyId: string)
    | PutOther(id: string, text: string)       // any other part of the system writing one of its own nodes

  predicate Creatable(nodes: map<string, Node>, k: string, details: Details, secret: string) {
    StartsWith(k, "key:") && secret != "" && SupportedAclMode(details.aclMode) && k !in nodes
  }

  function Step(nodes: map<string, Node>, op: Op): map<string, Node> {
    match op
    case Create(k, details, secret, expires, now) =>
      if Creatable(nodes, k, details, secret) then Created(nodes, k, details, secret, expires, now) else nodes
    case Rotate(k, secret, expires, now) =>
      if k in nodes && nodes[k].KeyNode? && nodes[k].status != KeyRevoked then Rotated(nodes, k, secret, expires, now) else nodes
    case Revoke(k) => if k in nodes && nodes[k].KeyNode? then Revoked(nodes, k) else nodes
    case PutOther(id, text) => if StartsWith(id, "key:") || StartsWith(id, "secret:") then nodes else nodes[id := OtherNode(text)]
  }

  // The manager's methods are these steps.
  method Perform(manager: KeyManager, op: Op)
    requires !op.PutOther?
    modifies manager
    ensures manager.nodes == Step(old(manager.nodes), op)
  {
    hide StartsWith, SupportedAclMode, Created, Rotated, Revoked;
    match op
    case Create(k, details, secret, expires, now) => var _ := manager.CreateKey(k, details, secret, expires, now);
    case Rotate(k, secret, expires, now) => var _ := manager.RotateKey(k, secret, expires, now);
    case Revoke(k) => var _ := manager.RevokeKey(k);
  }

  function Run(ops: seq<Op>): map<string, Node> {
    if ops == [] then map[] else Step(Run(ops[..|ops| - 1]), ops[|ops| - 1])
  }

  // --- secret refs -------------------------------------------------------------------------------------------

  // The number behind the last colon of a ref.
  lemma RefCountDecides(k: string, t: nat, a: nat, k': string, t': nat, b: nat)
    requires SecretRef(k, t, a) == SecretRef(k', t', b)
    ensures a == b
  {
    DecimalDenotes(a);
    DecimalDenotes(b);
    hide Decimal;
    SplitAtLastColon("secret:" + k + ":" + Decimal(t), Decimal(a), "secret:" + k' + ":" + Decimal(t'), Decimal(b));
  }

  // Every secret's ref was built from a node count that has been reached.
  ghost predicate RefsCounted(nodes: map<string, Node>) {
    forall id :: id in nodes && nodes[id].SecretNode? ==>
      exists t: nat, c: nat :: c <= |nodes| && id == SecretRef(nodes[id].keyId, t, c)
  }

  ghost predicate KindsByPrefix(nodes: map<string, Node>) {
    forall id :: id in nodes ==>
      && (nodes[id].KeyNode? <==> StartsWith(id, "key:"))
      && (nodes[id].SecretNode? <==> StartsWith(id, "secret:"))
  }

  lemma RefPrefix(k: string, t: nat, c: nat)
    ensures StartsWith(SecretRef(k, t, c), "secret:") && !StartsWith(SecretRef(k, t, c), "key:")
  {
    hide Decimal;
    var ref := SecretRef(k, t, c);
    assert ref[..7] == "secret:";
    NotBoth(ref);
  }

  // A new secret's ref is never in use: no secret is ever overwritten by another.
  lemma NewRefIsFresh(nodes: map<string, Node>, k: string, now: nat)
    requires RefsCounted(nodes) && KindsByPrefix(nodes)
    ensures NewRef(nodes, k, now) !in nodes
  {
    RefPrefix(k, now, |nodes| + 1);
    hide SecretRef, StartsWith;
    var ref := NewRef(nodes, k, now);
    if ref in nodes {
      var t: nat, c: nat :| c <= |nodes| && ref == SecretRef(nodes[ref].keyId, t, c);
      RefCountDecides(nodes[ref].keyId, t, c, k, now, |nodes| + 1);
    }
  }

  // --- keys and their secrets ------------------------------------------------------------------------------------

  // A key names a secret of its own, which is active while the key is and revoked once the key is.
  ghost predicate KeyNamesSecret(nodes: map<string, Node>, k: string)
    requires k in nodes && nodes[k].KeyNode?
  {
    && nodes[k].activeSecretRef.Some? && nodes[k].activeSecretRef.value in nodes
    && var secret := nodes[nodes[k].activeSecretRef.value];
       && secret.SecretNode? && secret.keyId == k
       && secret.secretStatus == if nodes[k].status == KeyActive then SecretActive else SecretRevoked
  }

  // An active secret is the one its key names; one that its key no longer names has been rotated.
  ghost predicate ActiveIsNamed(nodes: map<string, Node>, id: string)
    requires id in nodes && nodes[id].SecretNode?
  {
    var k := nodes[id].keyId;
    && k in nodes && nodes[k].KeyNode?
    && (nodes[id].secretStatus == SecretActive ==> nodes[k].status == KeyActive && nodes[k].activeSecretRef == Some(id))
    && (nodes[k].activeSecretRef != Some(id) ==> nodes[id].secretStatus == SecretRotated)
  }

  ghost predicate Managed(nodes: map<string, Node>) {
    && KindsByPrefix(nodes) && RefsCounted(nodes)
    && (forall k :: k in nodes && nodes[k].KeyNode? ==> KeyNamesSecret(nodes, k))
    && (forall id :: id in nodes && nodes[id].SecretNode? ==> ActiveIsNamed(nodes, id))
  }

  // Secrets keep their refs, and at most one is added, under the next ref.
  lemma RefsCountedGrows(nodes: map<string, Node>, nodes': map<string, Node>, k: string, now: nat)
    requires RefsCounted(nodes) && nodes.Keys <= nodes'.Keys
    requires forall id :: id in nodes' && nodes'[id].SecretNode? ==>
               if id in nodes then nodes[id].SecretNode? && nodes[id].keyId == nodes'[id].keyId
               else id == NewRef(nodes, k, now) && nodes'[id].keyId == k
    ensures RefsCounted(nodes')
  {
    hide SecretRef;
    SubsetSize(nodes.Keys, nodes'.Keys);
    forall id | id in nodes' && nodes'[id].SecretNode?
      ensures exists t: nat, c: nat :: c <= |nodes'| && id == SecretRef(nodes'[id].keyId, t, c)
    {
      if id in nodes {
        var t: nat, c: nat :| c <= |nodes| && id == SecretRef(nodes[id].keyId, t, c);
        assert c <= |nodes'|;
      } else {
        SubsetSize(nodes.Keys + {id}, nodes'.Keys);
        assert id == SecretRef(nodes'[id].keyId, now, |nodes| + 1);
      }
    }
  }

  lemma NotBoth(id: string)
    ensures !(StartsWith(id, "key:") && StartsWith(id, "secret:"))
  {
    if StartsWith(id, "key:") { assert id[..4][0] == id[0] == 'k'; }
    if StartsWith(id, "secret:") { assert id[..7][0] == id[0]; }
  }

  // A creation adds two nodes and leaves the others alone.
  lemma CreatedIs(nodes: map<string, Node>, k: string, details: Details, secret: string, expires: Option<nat>, now: nat)
    requires Managed(nodes) && StartsWith(k, "key:") && k !in nodes
    ensures var nodes' := Created(nodes, k, details, secret, expires, now);
            var new_ := NewRef(nodes, k, now);
            && new_ !in nodes && new_ != k && nodes'.Keys == nodes.Keys + {new_, k}
            && nodes'[k] == KeyNode(KeyActive, Some(new_), details)
            && nodes'[new_] == SecretNode(k, SecretActive, secret, expires)
            && StartsWith(new_, "secret:") && !StartsWith(new_, "key:") && !StartsWith(k, "secret:")
            && forall id :: id in nodes ==> nodes'[id] == nodes[id]
  {
    NewRefIsFresh(nodes, k, now);
    RefPrefix(k, now, |nodes| + 1);
    NotBoth(k);
    hide StartsWith, RefsCounted, SecretRef;
  }

  // The rest of the invariant, from what a change touches.
  lemma KeysAndSecretsKept(nodes: map<string, Node>, nodes': map<string, Node>, k: string)
    requires forall d :: d in nodes && nodes[d].KeyNode? ==> KeyNamesSecret(nodes, d)
    requires forall id :: id in nodes && nodes[id].SecretNode? ==> ActiveIsNamed(nodes, id)
    requires nodes.Keys <= nodes'.Keys
    requires forall id :: id in nodes' && nodes'[id].KeyNode? ==> id == k || (id in nodes && nodes'[id] == nodes[id])
    requires forall id :: id in nodes && nodes[id].SecretNode? && nodes[id].keyId != k ==> nodes'[id] == nodes[id]
    requires forall id :: id in nodes' && nodes'[id].SecretNode? && nodes'[id].keyId != k ==> id in nodes && nodes'[id] == nodes[id]
    requires k in nodes' && nodes'[k].KeyNode? && KeyNamesSecret(nodes', k)
    requires forall id :: id in nodes' && nodes'[id].SecretNode? && nodes'[id].keyId == k ==> ActiveIsNamed(nodes', id)
    requires forall d :: d in nodes && nodes[d].KeyNode? && d != k ==> nodes'[d] == nodes[d]
    ensures forall d :: d in nodes' && nodes'[d].KeyNode? ==> KeyNamesSecret(nodes', d)
    ensures forall id :: id in nodes' && nodes'[id].SecretNode? ==> ActiveIsNamed(nodes', id)
  {
    forall d | d in nodes' && nodes'[d].KeyNode? ensures KeyNamesSecret(nodes', d) {
      if d != k { assert KeyNamesSecret(nodes, d); }
    }
    forall id | id in nodes' && nodes'[id].SecretNode? ensures ActiveIsNamed(nodes', id) {
      if nodes'[id].keyId != k { assert ActiveIsNamed(nodes, id); }
    }
  }

  lemma CreateKinds(nodes: map<string, Node>, k: string, details: Details, secret: string, expires: Option<nat>, now: nat)
    requires Managed(nodes) && StartsWith(k, "key:") && k !in nodes
    ensures KindsByPrefix(Created(nodes, k, details, secret, expires, now))
  {
    CreatedIs(nodes, k, details, secret, expires, now);
    hide Created, StartsWith, RefsCounted, NewRef, KeyNamesSecret, ActiveIsNamed;
  }

  lemma CreateManaged(nodes: map<string, Node>, k: string, details: Details, secret: string, expires: Option<nat>, now: nat)
    requires Managed(nodes) && StartsWith(k, "key:") && k !in nodes
    ensures Managed(Created(nodes, k, details, secret, expires, now))
  {
    var nodes' := Created(nodes, k, details, secret, expires, now);
    CreatedIs(nodes, k, details, secret, expires, now);
    CreateKinds(nodes, k, details, secret, expires, now);
    hide Created, StartsWith, RefsCounted, NewRef, KindsByPrefix;
    RefsCountedGrows(nodes, nodes', k, now);
    forall id | id in nodes && nodes[id].SecretNode? ensures nodes[id].keyId != k { assert ActiveIsNamed(nodes, id); }
    assert KeyNamesSecret(nodes', k) && ActiveIsNamed(nodes', NewRef(nodes, k, now));
    hide KeyNamesSecret, ActiveIsNamed;
    KeysAndSecretsKept(nodes, nodes', k);
  }

  // A rotation touches three nodes: the key, the new secret, and the one the key named before.
  lemma RotatedIs(nodes: map<string, Node>, k: string, secret: string, expires: Option<nat>, now: nat)
    requires Managed(nodes) && k in nodes && nodes[k].KeyNode?
    ensures var nodes' := Rotated(nodes, k, secret, expires, now);
            var old_, new_ := nodes[k].activeSecretRef.value, NewRef(nodes, k, now);
            && new_ !in nodes && old_ in nodes && nodes[old_].SecretNode? && nodes[old_].keyId == k
            && nodes'.Keys == nodes.Keys + {new_}
            && nodes'[k] == nodes[k].(activeSecretRef := Some(new_))
            && nodes'[new_] == SecretNode(k, SecretActive, secret, expires)
            && nodes'[old_] == nodes[old_].(secretStatus := SecretRotated)
            && forall id :: id in nodes && id != k && id != old_ ==> nodes'[id] == nodes[id]
  {
    NewRefIsFresh(nodes, k, now);
    hide NewRef, StartsWith, RefsCounted;
    assert KeyNamesSecret(nodes, k);
  }

  lemma RotateManaged(nodes: map<string, Node>, k: string, secret: string, expires: Option<nat>, now: nat)
    requires Managed(nodes) && k in nodes && nodes[k].KeyNode? && nodes[k].status != KeyRevoked
    ensures Managed(Rotated(nodes, k, secret, expires, now))
  {
    RotatedIs(nodes, k, secret, expires, now);
    RotateKinds(nodes, k, secret, expires, now);
    var nodes' := Rotated(nodes, k, secret, expires, now);
    hide Rotated, SecretRef, StartsWith, RefsCounted, NewRef, KindsByPrefix;
    RefsCountedGrows(nodes, nodes', k, now);
    forall id | id in nodes' && nodes'[id].SecretNode? && nodes'[id].keyId == k ensures ActiveIsNamed(nodes', id) {
      if id in nodes { assert ActiveIsNamed(nodes, id); }
    }
    KeysAndSecretsKept(nodes, nodes', k);
  }

  lemma RotateKinds(nodes: map<string, Node>, k: string, secret: string, expires: Option<nat>, now: nat)
    requires Managed(nodes) && k in nodes && nodes[k].KeyNode?
    ensures KindsByPrefix(Rotated(nodes, k, secret, expires, now))
  {
    RefPrefix(k, now, |nodes| + 1);
    RotatedIs(nodes, k, secret, expires, now);
    assert NewRef(nodes, k, now) == SecretRef(k, now, |nodes| + 1);
    hide Rotated, SecretRef, StartsWith, RefsCounted, NewRef, KeyNamesSecret, ActiveIsNamed;
  }

  lemma RevokeManaged(nodes: map<string, Node>, k: string)
    requires Managed(nodes) && k in nodes && nodes[k].KeyNode?
    ensures Managed(Revoked(nodes, k))
  {
    hide SecretRef, StartsWith, RefsCounted;
    assert KeyNamesSecret(nodes, k);
    RefsCountedGrows(nodes, Revoked(nodes, k), k, 0);
  }

  lemma OtherManaged(nodes: map<string, Node>, id: string, text: string)
    requires Managed(nodes) && !StartsWith(id, "key:") && !StartsWith(id, "secret:")
    ensures Managed(nodes[id := OtherNode(text)])
  {
    hide SecretRef, StartsWith, RefsCounted;
    RefsCountedGrows(nodes, nodes[id := OtherNode(text)], "", 0);
  }

  lemma {:induction false} AlwaysManaged(ops: seq<Op>)
    ensures Managed(Run(ops))
  {
    if ops != [] {
      var nodes, op := Run(ops[..|ops| - 1]), ops[|ops| - 1];
      AlwaysManaged(ops[..|ops| - 1]);
      hide Managed, Created, Rotated, Revoked, StartsWith, SupportedAclMode;
      match op
      case Create(k, details, secret, expires, now) =>
        if Creatable(nodes, k, details, secret) { CreateManaged(nodes, k, details, secret, expires, now); }
      case Rotate(k, secret, expires, now) =>
        if k in nodes && nodes[k].KeyNode? && nodes[k].status != KeyRevoked { RotateManaged(nodes, k, secret, expires, now); }
      case Revoke(k) => if k in nodes && nodes[k].KeyNode? { RevokeManaged(nodes, k); }
      case PutOther(id, text) => if !StartsWith(id, "key:") && !StartsWith(id, "secret:") { OtherManaged(nodes, id, text); }
    }
  }

  // --- the lifecycle ---------------------------------------------------------------------------------------------

  function ActiveSecrets(nodes: map<string, Node>, k: string): set<string> {
    set id | id in nodes && nodes[id].SecretNode? && nodes[id].keyId == k && nodes[id].secretStatus == SecretActive
  }

  // After any run an active key has exactly one active secret, the one its ref names, and a revoked key has none.
  lemma OneActiveSecret(ops: seq<Op>, k: string)
    requires k in Run(ops) && Run(ops)[k].KeyNode?
    ensures var key := Run(ops)[k];
            && key.activeSecretRef.Some?
            && ActiveSecrets(Run(ops), k) == if key.status == KeyActive then {key.activeSecretRef.value} else {}
  {
    AlwaysManaged(ops);
    var nodes := Run(ops);
    hide Run, KindsByPrefix, RefsCounted;
    assert KeyNamesSecret(nodes, k);
    forall id | id in ActiveSecrets(nodes, k) ensures ActiveIsNamed(nodes, id) {}
  }

  lemma RevokedStep(nodes: map<string, Node>, op: Op, k: string)
    requires Managed(nodes) && k in nodes && nodes[k].KeyNode? && nodes[k].status == KeyRevoked
    ensures k in Step(nodes, op) && Step(nodes, op)[k] == nodes[k]
  {
    assert KeyNamesSecret(nodes, k);
    match op
    case Create(d, _, _, _, now) =>
      if d !in nodes { NewRefIsFresh(nodes, d, now); }
      hide StartsWith, RefsCounted, NewRef;
    case Rotate(d, secret, expires, now) =>
      if d in nodes && nodes[d].KeyNode? { RotatedIs(nodes, d, secret, expires, now); }
      hide StartsWith, RefsCounted, NewRef, Rotated;
    case Revoke(d) =>
      if d in nodes && nodes[d].KeyNode? { assert KeyNamesSecret(nodes, d); }
      hide StartsWith, RefsCounted, NewRef;
    case PutOther(id, _) => hide RefsCounted;
  }

  lemma RunUnfolds(ops: seq<Op>, more: seq<Op>)
    requires more != []
    ensures Run(ops + more) == Step(Run(ops + more[..|more| - 1]), more[|more| - 1])
  {
    hide Step;
    assert (ops + more)[..|ops + more| - 1] == ops + more[..|more| - 1];
  }

  lemma {:induction false} RevokedStays(ops: seq<Op>, more: seq<Op>, k: string)
    requires k in Run(ops) && Run(ops)[k].KeyNode? && Run(ops)[k].status == KeyRevoked
    ensures k in Run(ops + more) && Run(ops + more)[k] == Run(ops)[k]
    decreases |more|
  {
    if more == [] {
      assert ops + more == ops;
    } else {
      var n := |more| - 1;
      RevokedStays(ops, more[..n], k);
      RunUnfolds(ops, more);
      hide Run, Step, Managed;
      AlwaysManaged(ops + more[..n]);
      RevokedStep(Run(ops + more[..n]), more[n], k);
    }
  }

  // A revoked key stays as it is for ever, whatever is done afterwards, and never has an active secret again.
  lemma RevokedForEver(ops: seq<Op>, more: seq<Op>, k: string)
    requires k in Run(ops) && Run(ops)[k].KeyNode? && Run(ops)[k].status == KeyRevoked
    ensures k in Run(ops + more) && Run(ops + more)[k] == Run(ops)[k] && ActiveSecrets(Run(ops + more), k) == {}
  {
    hide Run, ActiveSecrets;
    RevokedStays(ops, more, k);
    OneActiveSecret(ops + more, k);
  }

  // --- resolving ---------------------------------------------------------------------------------------------------

  // Over every run, what a ref gives: the key's newest secret while the key is active and the secret usable, and
  // otherwise the reason why not. A revoked key's secrets and the secrets that were rotated out are never handed out.
  lemma WhatARefGives(ops: seq<Op>, ref: string, now: nat)
    ensures var nodes := Run(ops);
            if ref !in nodes || !nodes[ref].SecretNode? then Resolved(nodes, ref, now) == Err(SecretPayloadNotFound)
            else
              var secret := nodes[ref];
              && secret.keyId in nodes && nodes[secret.keyId].KeyNode?
              && var key := nodes[secret.keyId];
                 Resolved(nodes, ref, now)
                 == if key.activeSecretRef != Some(ref) then Err(SecretNotActive(SecretRotated))
                    else if key.status == KeyRevoked then Err(SecretNotActive(SecretRevoked))
                    else if secret.expires.Some? && secret.expires.value < now then Err(SecretPayloadExpired)
                    else if secret.providerSecret == "" then Err(ProviderSecretMissing)
                    else Ok(secret.providerSecret)
  {
    AlwaysManaged(ops);
    var nodes := Run(ops);
    hide Run, KindsByPrefix, RefsCounted;
    if ref in nodes && nodes[ref].SecretNode? {
      assert ActiveIsNamed(nodes, ref);
      assert KeyNamesSecret(nodes, nodes[ref].keyId);
    }
  }

  // A secret is handed out only under the ref its active key names.
  lemma OnlyTheNamedSecret(ops: seq<Op>, ref: string, now: nat)
    requires Resolved(Run(ops), ref, now).Ok?
    ensures exists k :: k in Run(ops) && Run(ops)[k].KeyNode? && Run(ops)[k].status == KeyActive && Run(ops)[k].activeSecretRef == Some(ref)
  {
    WhatARefGives(ops, ref, now);
    hide Run, Resolved;
  }

  // Once a key is revoked none of its secrets, old or new, is ever handed out again.
  lemma RevokedNeverResolves(ops: seq<Op>, more: seq<Op>, k: string, ref: string, now: nat)
    requires k in Run(ops) && Run(ops)[k].KeyNode? && Run(ops)[k].status == KeyRevoked
    requires ref in Run(ops + more) && Run(ops + more)[ref].SecretNode? && Run(ops + more)[ref].keyId == k
    ensures Resolved(Run(ops + more), ref, now).Err?
  {
    RevokedForEver(ops, more, k);
    WhatARefGives(ops + more, ref, now);
    hide Run, Resolved, ActiveSecrets;
  }

  // A new key's ref resolves to the secret it was created with, until the secret expires.
  lemma CreatedResolves(ops: seq<Op>, k: string, name: string, details: Details, secret: string, expires: Option<nat>, now: nat, later: nat)
    requires k == "key:" + name && k !in Run(ops) && secret != ""
    requires var mode := details.aclMode;
             mode == "private" || mode == "shared" || mode == "scope" || mode == "group" || mode == "public"
    ensures var nodes := Run(ops);
            var after := Run(ops + [Create(k, details, secret, expires, now)]);
            k in after && after[k].KeyNode? && after[k].details == details && after[k].activeSecretRef.Some?
            && Resolved(after, after[k].activeSecretRef.value, later)
               == if expires.Some? && expires.value < later then Err(SecretPayloadExpired) else Ok(secret)
  {
    var op := Create(k, details, secret, expires, now);
    assert k[..4] == "key:";
    assert (ops + [op])[..|ops|] == ops;
    RefPrefix(k, now, |Run(ops)| + 1);
    NotBoth(k);
    hide StartsWith, SecretRef;
  }

  // A creation with a bad id, no secret, another access mode or a taken id changes nothing.
  lemma CreateRefused(ops: seq<Op>, k: string, details: Details, secret: string, expires: Option<nat>, now: nat)
    requires |k| < 4 || k[..4] != "key:" || secret == "" || k in Run(ops)
             || details.aclMode !in ["private", "shared", "scope", "group", "public"]
    ensures Run(ops + [Create(k, details, secret, expires, now)]) == Run(ops)
  {
    var op := Create(k, details, secret, expires, now);
    assert (ops + [op])[..|ops|] == ops;
  }

  lemma NamedSecret(nodes: map<string, Node>, k: string)
    requires Managed(nodes) && k in nodes && nodes[k].KeyNode?
    ensures nodes[k].activeSecretRef.Some?
  {
    hide KindsByPrefix, RefsCounted, ActiveIsNamed;
    assert KeyNamesSecret(nodes, k);
  }

  // After a rotation the old ref is refused as rotated. The new one resolves to the new secret exactly if that
  // is not empty, which the rotation does not check, and has not expired.
  lemma RotatedResolves(ops: seq<Op>, k: string, secret: string, expires: Option<nat>, now: nat, later: nat)
    requires k in Run(ops) && Run(ops)[k].KeyNode? && Run(ops)[k].status == KeyActive
    ensures var nodes := Run(ops);
            var after := Run(ops + [Rotate(k, secret, expires, now)]);
            && k in after && after[k].KeyNode? && after[k].activeSecretRef.Some? && nodes[k].activeSecretRef.Some?
            && Resolved(after, nodes[k].activeSecretRef.value, later) == Err(SecretNotActive(SecretRotated))
            && (Resolved(after, after[k].activeSecretRef.value, later) == Ok(secret)
                <==> secret != "" && !(expires.Some? && expires.value < later))
  {
    hide Managed, Rotated, Created, Revoked, NewRef, StartsWith, KeyNamesSecret;
    var op := Rotate(k, secret, expires, now);
    assert (ops + [op])[..|ops|] == ops;
    AlwaysManaged(ops);
    RotatedIs(Run(ops), k, secret, expires, now);
    NamedSecret(Run(ops), k);
  }
}
