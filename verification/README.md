# Cloud credential operator: a verified model

The cloud credential operator turns CredentialsRequest objects into AWS IAM users, policies and access keys, stores the
keys in Kubernetes secrets, and takes all of it away again when a request is deleted. This project models it as a
reconciliation protocol over two unreliable stores, the Kubernetes API and AWS IAM, and proves what every run keeps.

## How the model is built

- `Store` holds both stores as one value and the effect of every atomic call. A request is the list of all its stored
  versions; its resourceVersion is an index in that list.
- `Goals` says what the operator is to bring about: in sync, passed through, and what a successful sync means (`Outcome`).
- `Protocol` states the guard of every step of the operator, in terms of the version it has in hand, and an invariant that
  every guarded step and every environment step keeps.
- `Runs` proves theorems about whole runs: any interleaving of guarded steps with environment steps. A success of the
  actuator may be reported only where its `Outcome` holds, by a root secret that was stored at some earlier moment.
- `Runtime` is what the running operator meets: a class whose calls read from an arbitrary script whether they
  succeed, fail without effect or fail after taking effect (a lost answer), how stale a cached read is, and what the
  environment does next. Each call requires the guard of its step, so verifying the operator against this class shows that
  everything it does is a run of the protocol.
- `Actuator` and `Reconciler` are the operator: imperative methods with an error exit after every call.
  `Reconciler.RunOperator` is the worker over any schedule and any script.
- `Conditions`, `OperatorConditions`, `OperatorStatus`, `Permissions`, `Annotator`, `Naming` and `Policies` are the
  condition algebra, the ClusterOperator roll-up, the classification of the root credentials, and the strings and
  documents involved. `Witnesses` holds concrete runs, made of the steps that reconciles make from a cluster with root
  credentials.

A contract on a fault-free call has `Quiet()` in its premise: no later call fails and the environment stands still. All
other clauses hold under every script. The history variables of `Store.Cluster` (from `drawn` on) record what happened
and steer nothing.

## Assumptions on the environment

- A write that carries a resourceVersion takes effect on that version only; a successful write refreshes the copy's version.
- Cached reads of requests may be stale but never go back before a version already shown (`Witnesses.BackwardReadOrphans`
  shows that this is needed). Reads of secrets and namespaces are current.
- IAM is linearizable, refuses to delete a user with keys or inline policies, allows two keys, and issues new key ids that
  are non-empty and that nothing refers to.
- Only the operator removes its finalizer and writes the status of a request. Nobody else edits users under names the
  operator has drawn, nor writes the target secret of a request that carries the finalizer; anybody may delete it. A key
  id issued to the operator is only ever stored together with its own secret value.
- A randomly drawn user name is one that nobody uses. One worker runs at a time.

## What turned out not to hold

- Recovery fails for a request that has a recorded user and an existing target secret while the user does not exist:
  `needsUpdate` then reports an error on every attempt (pkg/aws/actuator/actuator.go:182-190), so `syncMint` is never
  reached. `Witnesses.StuckIsReachable` reaches such a state; `Actuator.MintExact` and `Reconciler.Reconcile` give the exact
  condition, in both directions.
- "A failed sync is retried by the next reconcile" fails when the failing reconcile was shown a version older than the
  operator's own record of an earlier success that is less than an hour old. `Runs.RetryIsExact` gives the condition as an
  equivalence at the moment the actuator is called; `Runs.FailureIsRetried` gives it at the moment of the read, and
  `Reconciler.ReconcileTwice` for two reconciles. `Witnesses.StaleFailureIsReachable` reaches the failing case.
- `ConditionsEqual` is documented as equality ignoring times; it is that exactly on lists without duplicate entries
  (`OperatorConditions.ComparisonIsExact`).
- A nil Data map on an existing target secret makes the operator panic when it must store a key
  (`Witnesses.NilDataIsReachable`; `Actuator.MintExact` says exactly when). This is the only panic that is reached. The
  dereference after an EntityAlreadyExists answer (pkg/aws/actuator/actuator.go:400) is not: under the assumptions above
  that answer never comes (`Actuator.EnsureUser`).
- Two branches are unreachable: the one of `needsUpdate` that simulates the policy of passed-through credentials, because
  `Exists` implies a recorded user (`Actuator.JudgeExisting`), and the one of `syncMint` that completes a record with a user
  and no policy name (`Actuator.EnsureName`).
- An annotation other than the three modes makes a fault-free `sync` succeed without doing anything, and the reconcile then
  records the request as provisioned and synced (`ByMode` in `Actuator.Sync`, `ModeSpec` in `Reconciler.Reconcile`,
  `Witnesses.UnknownModeIsRecorded`). So does passing through a root secret that holds no key pair to a target secret that
  exists already, without storing any key (`Witnesses.KeylessPassthroughIsRecorded`). `Annotator.ModeDispatch` and `Annotator.SyncedMeansProvided` state what holds if only
  the annotator writes the mode.

## Model

| member | source | states |
|---|---|---|
| Runs.NoOrphanedUser | pkg/aws/actuator/actuator.go:349-411 | at every moment of every run, each existing user the operator created is named in the stored status of a request that exists and carries the deprovision finalizer |
| Runs.OneUserPerRequest | pkg/aws/actuator/actuator.go:349-362 | the users ever created in a run and the request objects they were created for are in one-to-one correspondence: a stale read never mints a second user |
| Runs.FinalizerSafety | pkg/controller/credentialsrequest/credentialsrequest_controller.go:289-343 | whenever removing the finalizer takes effect, the stored request is deleted, its recorded user (hence its keys and policy) is gone and its current target secret is gone |
| Runs.NoPrematureDelete | pkg/aws/actuator/actuator.go:573-656 | no run deletes a user, or its policy, that a stored request names unless that request is marked deleted |
| Runs.KeyConservation | pkg/aws/actuator/actuator.go:448-507 | at every moment a minted user has at most one key, issued by AWS with its value, and has none when the operator asks for a key |
| Runs.RootClientOnly | pkg/aws/actuator/actuator.go:720-740 | every step of the operator that changes IAM goes through a root client (BuildRootClient) and works on a user claimed by the request it is made for |
| Runs.StoredNames | pkg/aws/actuator/actuator.go:1093-1114 | every stored version has a user name of at most 64 characters and exactly the policy name derived from it, at most 128 |
| Runs.SentNames | pkg/aws/actuator/actuator.go:349-370 | every user name sent to IAM is non-empty and at most 64 characters, and every policy name sent is the derived one |
| Runs.SecretsMapBack | pkg/controller/credentialsrequest/credentialsrequest_controller.go:123-142 | for slash-free names, the owner annotation on every secret the operator writes maps back to the request it was written for |
| Runs.SecretsKeepMode | pkg/aws/actuator/actuator.go:804-873 | no secret write of the operator touches a mode annotation: an existing secret keeps its mode, a created one has none |
| Runs.StoredStatus | pkg/controller/credentialsrequest/credentialsrequest_controller.go:400-450 | in every run stored condition types are unique, the two provisioning failures exclude each other, and Provisioned excludes both |
| Runs.SkipIsSound | pkg/controller/credentialsrequest/credentialsrequest_controller.go:413-430 | the stored LastSyncGeneration never exceeds the generation, and equality means that at an earlier step, at the recorded time, this object was stored with exactly this spec and generation, success was reported for that stored version, and the outcome of a successful sync held, judged by a root secret stored before |
| Runs.SkippedWasSynced | pkg/controller/credentialsrequest/credentialsrequest_controller.go:380-386 | every version that passes the skip test, stored or stale, has the spec and generation for which, less than 3600 seconds before, a step of the run reported a success whose outcome held |
| Runs.FailureIsRetried | pkg/controller/credentialsrequest/credentialsrequest_controller.go:380-430 | if no version newer than the one read records a sync of its own generation within the hour, then after the actuator is called for it no readable version passes the skip test until the actuator succeeds, whatever happens |
| Runs.FailureMayBeSkipped | pkg/controller/credentialsrequest/credentialsrequest_controller.go:380-430 | if, when the actuator is called, some newer version records such a sync, the run can go on with a failure and a read of a version that passes the skip test |
| Runs.RetryIsExact | pkg/controller/credentialsrequest/credentialsrequest_controller.go:380-430 | at the moment the actuator is called: every continuation without a success leaves nothing to skip if and only if no version newer than the one shown records a sync of its own generation within the hour |
| Runs.CaughtUpReadsNothingToSkip | pkg/controller/credentialsrequest/credentialsrequest_controller.go:380-386 | nothing can be skipped whenever the version shown fails the skip test and no later version records another sync |
| Runs.RunIsSafe | pkg/controller/credentialsrequest/credentialsrequest_controller.go:255-431 | every moment of every run is safe: no orphaned user, at most one issued key, finalizers only come off cleared requests |
| Protocol.StepKeepsInv | pkg/controller/credentialsrequest/credentialsrequest_controller.go:255-431 | every guarded operator step and every environment step keeps the invariant on versions, users, keys and secrets |
| Protocol.EvidenceIsCurrent | pkg/aws/actuator/actuator.go:349-411 | a live version in hand that carries the finalizer and a user name proves that the stored request still carries both, however stale the version is |
| Runtime.World.GetRequest | pkg/controller/credentialsrequest/credentialsrequest_controller.go:272-281 | a cached read returns some version not older than the last one shown, with its index as resourceVersion; fault-free it is the stored one |
| Runtime.World.UpdateRequest | pkg/controller/credentialsrequest/credentialsrequest_controller.go:536-563 | success means that the version was current and the write took effect; a failure may have taken effect all the same |
| Runtime.World.CallIam | pkg/aws/actuator/actuator.go:1044-1072 | success means that IAM accepted the call and it took effect; NoSuchEntity and EntityAlreadyExists tell the state; any other failure may have taken effect |
| Actuator.Exists | pkg/aws/actuator/actuator.go:118-144 | true means a recorded user and a target secret, false means one of them is missing, an unreadable secret is an error |
| Actuator.BuildRootClient | pkg/aws/actuator/actuator.go:720-740 | under any faults a root client carries the key pair stored in kube-system/aws-creds; fault-free it is built exactly if that secret holds one |
| Actuator.BuildReadClient | pkg/aws/actuator/actuator.go:742-795 | after a rejected token, and for the operator's own request, only a root client is returned; a read-only client carries the stored or empty credentials; fault-free the client is exactly determined |
| Actuator.NeedsUpdate | pkg/aws/actuator/actuator.go:148-241 | "no update" implies user, tag, exact policy and one key, which is the one in the target secret; fault-free all three answers are exact: no update iff readable and in sync, update iff NeedsWork, otherwise an error, which for a readable request means stuck |
| Actuator.EnsureName | pkg/aws/actuator/actuator.go:349-370 | on success the name and its policy name are in the version in hand, persisted by a version-checked write before anything is created; the branch for a missing policy name is shown to be unreachable |
| Actuator.EnsureUser | pkg/aws/actuator/actuator.go:384-411 | on success the user exists as returned; the nil dereference is never reached |
| Actuator.EnsurePolicy | pkg/aws/actuator/actuator.go:430-446 | on success the user carries exactly the desired document and is otherwise unchanged |
| Actuator.EnsureKey | pkg/aws/actuator/actuator.go:448-493 | on success either the key in the target secret is live, or the user's keys are exactly the new pair, as issued |
| Actuator.DeleteAllAccessKeys | pkg/aws/actuator/actuator.go:1005-1020 | on success the user has no keys and is otherwise unchanged, under any interference and order of the listed keys |
| Actuator.SyncAccessKeySecret | pkg/aws/actuator/actuator.go:804-873 | on success the target secret, if still there and the request unchanged, is exactly what was to be written; a panic happens exactly on a nil Data map that must take a key; nothing is written when nothing differs |
| Actuator.WrittenKeepsRest | pkg/aws/actuator/actuator.go:846-856 | what is written to an existing secret keeps its other entries and annotations and its mode, names owner and policy, and replaces the key pair exactly if a full one is given |
| Actuator.SyncMint | pkg/aws/actuator/actuator.go:334-507 | success leaves user, tag, policy and key settled, the user tagged kubernetes.io/cluster/<infra>=owned or, without an infrastructure name, openshiftClusterID=<uuid>, and the target annotated with owner and applied document; fault-free, given all it needs, it succeeds exactly unless the target has a nil Data map, and lacking something it fails without touching a user or a secret |
| Goals.TagsTellClustersApart | pkg/aws/actuator/actuator.go:525-548 | a user tagged for one cluster alone does not have the tag expected by another |
| Actuator.StoredPair | pkg/aws/actuator/actuator.go:448-507 | after a successful mint the user's keys are exactly the id and secret value stored in the target secret |
| Actuator.SyncPassthrough | pkg/aws/actuator/actuator.go:315-332 | success with a root key pair puts it, the owner and an empty policy in the target secret, and repeated writes nothing; without a key pair it fails exactly if there is no target secret and otherwise succeeds without storing a key |
| Actuator.Sync | pkg/aws/actuator/actuator.go:253-313 | success means Outcome, by a root secret seen in the run; the reason InsufficientCloudCreds is given exactly if the root secret seen says insufficient, under any faults; in sync writes nothing; without the root secret nothing is written and success means being in sync; fault-free behaviour in every case (Synced): nothing to do, not to be judged, and by mode minting with and without all it needs, passing through with and without a key pair, insufficient, unknown and missing mode |
| Actuator.MintExact | pkg/aws/actuator/actuator.go:253-313 | given all it needs, a fault-free mint sync succeeds and ends in sync if and only if the request is neither stuck nor has a target with a nil Data map, and panics if and only if it is not stuck and has such a target |
| Actuator.SyncTwice | pkg/aws/actuator/actuator.go:253-313 | a fault-free sync after a successful mint under any faults writes nothing and succeeds, if the request is unchanged, readable and has its target |
| Actuator.Delete | pkg/aws/actuator/actuator.go:573-656 | returning without an error by any exit implies that the recorded user is gone; fault-free it does so exactly if there is no user or the root credentials can be used |
| Reconciler.UpdateActuatorConditions | pkg/controller/credentialsrequest/credentialsrequest_controller.go:433-450 | afterwards each of the two provisioning failures is True exactly if it is the reason, with the current message, and the namespace condition reads as before |
| Reconciler.SettingsTell | pkg/controller/credentialsrequest/credentialsrequest_controller.go:452-534 | each of the four settings is True exactly if asked for, and its message tells the namespace or the error |
| Reconciler.ReconcileDelete | pkg/controller/credentialsrequest/credentialsrequest_controller.go:289-343 | NoError means that a stored version without the finalizer followed; fault-free it finishes deprovisioning, or without usable root credentials records the failure and keeps the finalizer |
| Reconciler.RecordSuccess | pkg/controller/credentialsrequest/credentialsrequest_controller.go:413-430 | callable only where the outcome of the sync is there; the success enters the run, as a record of the stored version if the version in hand is that, and nothing is owed; NoError means that a stored version says so; fault-free the stored request says provisioned, with the generation and time of this sync and the namespace not missing, and is otherwise the synced one |
| Reconciler.RecordFailure | pkg/controller/credentialsrequest/credentialsrequest_controller.go:400-430 | what is owed stays owed; fault-free a reason is stored as the True condition with the current message, Provisioned off, the namespace not missing and the sync record kept, and a plain error writes nothing |
| Reconciler.ReconcileLive | pkg/controller/credentialsrequest/credentialsrequest_controller.go:356-430 | the skip test is put to exactly the version shown; where a sync is owed it does not pass; a failure of the actuator, Exists included, makes a sync owed if the version shown was caught up; fault-free: an absent namespace ends it with MissingTargetNamespace True stored, the skip ends it without any write, and a sync ends with the condition not True |
| Reconciler.Reconcile | pkg/controller/credentialsrequest/credentialsrequest_controller.go:255-431 | from every reachable state: under any faults (ReconcileCourse) it is skipped exactly if the version shown records a sync of its generation less than 3600 seconds ago, then the actuator had succeeded on exactly that spec within the hour, and NoError after a call means that a stored version records the sync; and what one fault-free reconcile does case by case (StoredSpec): recovery by minting exactly unless stuck or nil Data, a mint that lacks something, in sync already with or without root credentials, passthrough with and without a key pair, insufficient, unknown and missing mode, deletion, adoption, gate and skip |
| Reconciler.ReconcileTwice | pkg/controller/credentialsrequest/credentialsrequest_controller.go:380-430 | if the actuator fails in the first of two reconciles and no version newer than the one it was shown records a sync within the hour, the second is not skipped, under any faults (so never after a fault-free first one that failed); a fault-free second one is skipped exactly if the stored version is live, has its namespace and passes the skip test |
| Reconciler.RunOperator | pkg/controller/credentialsrequest/credentialsrequest_controller.go:95-105 | for any schedule and any script of faults and interference, everything the worker does is a run of the protocol and every moment of it is safe |
| Witnesses.BackwardReadOrphans | pkg/aws/actuator/actuator.go:384-411 | if a cached read could go backwards, a run of four reconciles would leave a created user that no request names |
| Witnesses.StuckIsReachable | pkg/aws/actuator/actuator.go:182-190 | a run reaches a live request, due for a sync and with all that a mint needs, with recorded user and existing target secret whose user does not exist |
| Witnesses.NilDataIsReachable | pkg/aws/actuator/actuator.go:852-855 | a run reaches a live request, due and with all that a mint needs and not stuck, whose target secret has a nil Data map |
| Witnesses.UnknownModeIsRecorded | pkg/aws/actuator/actuator.go:293-312 | with an unknown mode a run ends with a live request recorded as provisioned and synced while there is neither a user nor a target secret |
| Witnesses.KeylessPassthroughIsRecorded | pkg/aws/actuator/actuator.go:847-855 | with a root secret in passthrough mode without a key pair a run ends with a live request recorded as provisioned and synced while its target secret holds no key |
| Witnesses.StaleFailureIsReachable | pkg/controller/credentialsrequest/credentialsrequest_controller.go:380-386 | a run of a passthrough success, a stale read and a failure is followed by a read of a live version, its namespace there, that passes the skip test |
| Conditions.SetCredentialsRequestCondition | pkg/controller/utils/condition_utils.go:79-119 | the in-place update computes Set, whose meaning the following rows give |
| Conditions.SetFrame | pkg/controller/utils/condition_utils.go:79-119 | types stay unique, no entry is dropped or moved, and entries of other types are untouched |
| Conditions.SetReads | pkg/controller/utils/condition_utils.go:79-119 | afterwards the type is True exactly if set to True, and every other type reads as before |
| Conditions.SetByCheck | pkg/controller/utils/condition_utils.go:30-77 | after a set made on any change a condition that is there says what the setting says, a set always made also probes it, and a set never made without a change of status leaves an equal status untouched |
| Conditions.LatestSetShows | pkg/controller/utils/condition_utils.go:79-119 | after any sequence of sets a condition that is there says what the latest set for its type said, if that was to be made on any change |
| Conditions.ConditionTimes | pkg/controller/utils/condition_utils.go:60-119 | after any sequence of sets under a monotone clock, each condition is the one told from the requests for its type alone, and transition never exceeds probe time |
| Conditions.TransitionIsLatestFlip | pkg/controller/utils/condition_utils.go:104-117 | after any sequence of sets the transition time is that of a request for this type before which the condition was absent or had another status and after which no request asked for another status |
| Conditions.EntriesKeepPlaces | pkg/controller/utils/condition_utils.go:79-119 | entries present at any earlier moment keep their places |
| Conditions.NonTrueWasTrue | pkg/controller/utils/condition_utils.go:89-103 | a condition is only ever present because its type was once set to True |
| OperatorConditions.SetStatusCondition | pkg/util/clusteroperator/status.go:11-36 | the loop with its early return computes Put, stamped with the present time |
| OperatorConditions.PutFrame | pkg/util/clusteroperator/status.go:11-36 | types stay unique, no entry is dropped or moved, other entries are untouched, and an unchanged entry keeps its time |
| OperatorConditions.ConditionsEqual | pkg/util/clusteroperator/status.go:40-65 | true exactly if the lengths agree and every entry of the first list has one of the same content in the second |
| OperatorConditions.CoversPermuted | pkg/util/clusteroperator/status.go:40-65 | on a first list without duplicates this is being a permutation of each other, ignoring times |
| OperatorConditions.ComparisonIsExact | pkg/util/clusteroperator/status.go:38-65 | the comparison agrees with permutation against every list if and only if the first list has no duplicates |
| OperatorConditions.ComparisonIsEquivalence | pkg/util/clusteroperator/status.go:40-65 | on type-unique lists it is reflexive, symmetric and transitive |
| OperatorConditions.ComparisonIsNotSymmetric | pkg/util/clusteroperator/status.go:40-65 | without uniqueness it is not symmetric |
| OperatorStatus.ComputeStatusConditions | pkg/controller/credentialsrequest/status.go:127-231 | the counting loops and the three sets compute RollUp |
| OperatorStatus.CountIsExact | pkg/controller/credentialsrequest/status.go:147-165 | a count is the number of positions that satisfy the test, hence within 0 and the length |
| OperatorStatus.RollUpCorrect | pkg/controller/credentialsrequest/status.go:127-231 | Failing is True iff some request reports one of the four failures, Progressing iff some request is failing or unprovisioned, Available always; other entries keep their places |
| OperatorStatus.RollUpPermuted | pkg/controller/credentialsrequest/status.go:127-231 | the roll-up does not depend on the order of the requests |
| OperatorStatus.FailingMessageTells | pkg/controller/credentialsrequest/status.go:163-168 | equal Failing messages mean equal counts and totals |
| OperatorStatus.ProgressingMessageTells | pkg/controller/credentialsrequest/status.go:192-198 | equal Progressing messages mean equal counts and totals |
| OperatorStatus.VersionsTellReleases | pkg/controller/credentialsrequest/status.go:115-124 | the reported version is the operator's, and different releases report different versions |
| OperatorStatus.ProvisionedWithoutErrors | pkg/controller/credentialsrequest/status_test.go:120-135 | in every run a stored provisioned request is failing exactly for a missing namespace or failed deprovisioning: "provisioned with errors" does not occur, and is never counted |
| OperatorStatus.ClusterOperator.SyncOperatorStatus | pkg/controller/credentialsrequest/status.go:38-86 | the stored status becomes the computed one exactly if that differs and the write is taken; the Progressing lookup always finds an entry |
| OperatorStatus.WritesUnlessQuiescent | pkg/controller/credentialsrequest/status.go:52-83 | on type-unique conditions a sync writes exactly when the stored state does not already say what it should |
| OperatorStatus.AtMostOneWrite | pkg/controller/credentialsrequest/status.go:52-83 | while requests (in any order) and release stay the same, any number of syncs at any times writes at most once |
| Permissions.CheckPermissionsUsingQueryClient | pkg/controller/utils/utils.go:161-205 | true exactly for the root user or when the check can be made and every action mentioned in the statements is allowed; an error exactly when it cannot be made |
| Permissions.CheckPermissionsAgainstActions | pkg/controller/utils/utils.go:216-226 | the same for a plain list of actions on the credentials' own behalf |
| Permissions.ListsCoverTheCheck | pkg/controller/utils/utils.go:27-100 | either list asks for the two actions that the check itself needs |
| Permissions.MintCoversTheActuator | pkg/controller/utils/utils.go:27-41 | credentials that qualify for mint mode may make every IAM change and read that the actuator makes |
| Permissions.MoreGrantsNeverLower | pkg/controller/secretannotator/secretannotator_controller.go:171-197 | granting more permissions never lowers the mode that the granted actions call for |
| Annotator.ValidateCloudCredsSecret | pkg/controller/secretannotator/secretannotator_controller.go:148-198 | only the three modes are ever written and nothing else changes; nothing is written exactly if the infrastructure name or the client cannot be had; an answer without error means that every call made went through; when all calls go through, the mode is exactly the one the granted actions call for, also when a check itself is not permitted |
| Annotator.VerdictIsEarned | pkg/controller/secretannotator/secretannotator_controller.go:148-198 | mint or passthrough is only written for credentials that have all its actions, in a secret that holds both entries |
| Annotator.VerdictNeverLower | pkg/controller/secretannotator/secretannotator_controller.go:148-198 | under any one outcome of the calls, granting more permissions never lowers the mode that is written, in the order insufficient, passthrough, mint |
| Annotator.ModeDispatch | pkg/aws/actuator/actuator.go:253-331 | if nobody in the environment but the annotator writes the mode, a successful sync means in sync or, in passthrough mode with a key pair, the root key pair in the target secret |
| Annotator.SyncedMeansProvided | pkg/controller/credentialsrequest/credentialsrequest_controller.go:380-386 | if nobody in the environment but the annotator writes the mode, a stored request whose generation is the recorded one was, at the step that reported the sync, stored with exactly its spec and in sync, or passed through if the root secret held a key pair; its target secret may have been lost by then |
| Policies.BuildDesiredPolicy | pkg/aws/actuator/actuator.go:875-897 | the copying loop yields the requested entries in order, followed by the self-lookup statement |
| Policies.DesiredPolicyInjective | pkg/aws/actuator/actuator.go:875-897 | the document determines both the entries and the ARN |
| Policies.DesiredPolicyDecides | pkg/aws/actuator/actuator.go:933-940 | under deny-overrides evaluation with any matching, it decides as the entries do, except for allowing self iam:GetUser where not denied |
| Naming.GenerateUserName | pkg/aws/actuator/actuator.go:1093-1108 | an error exactly for an empty credential name; with a five-character suffix a name of 1 to 64 characters |
| Naming.UserNameParts | pkg/aws/actuator/actuator.go:1093-1108 | different random suffixes give different names; the name starts with the cluster's name and ends with the suffix |
| Naming.UserNameWhole | pkg/aws/actuator/actuator.go:1093-1108 | names within the limits are used whole |
| Naming.PolicyNameInjective | pkg/aws/actuator/actuator.go:1110-1114 | different users have different policy names |
| Naming.OwnerRoundTrip | pkg/controller/credentialsrequest/credentialsrequest_controller.go:123-142 | the annotation maps back to exactly the owner if and only if both names are slash-free |

## Left out

- pkg/azure: copies two fields and deletes nothing, so it would only add easy members.
- pkg/aws/client.go and pkg/aws/mock: replaced by the IAM store; retries inside the AWS SDK are not modelled.
- JSON, percent-encoding and the provider codec: documents and provider status are values, as if encoding were injective; a
  provider status that cannot be decoded is not modelled, a provider spec that cannot be decoded is.
- Creation of a missing ClusterOperator: depends on how the API server treats status on create.
- The call of syncOperatorStatus deferred in Reconcile: modelled on its own in OperatorStatus, not inside Reconcile.
- The work queue, watches and predicates: any request may come up at any time; only the annotation map function is modelled.
- Logging and the text of error messages: an error's text is a parameter.
- Actuator.EnsureName: the completion of a record that has a user but no policy name (pkg/aws/actuator/actuator.go:364-370) is only shown to be unreachable.
- Actuator.NeedsUpdate: the simulation of passed-through credentials is only shown to be unreachable.
- Actuator.SyncAccessKeySecret: annotations are the three the operator knows and the rest; nil and empty annotation maps are one.
- OperatorStatus.ClusterOperator.SyncOperatorStatus: conditions are values, so that forcing the Progressing time also changes the list it may share with the one that was read is not visible; the comparison ignores times.
- Runs.SkipIsSound: the outcome held when success was reported; that it stays in sync afterwards is not claimed.
- Finalizers are a set, and their order is not modelled; the loops of HasFinalizer and its siblings are membership, union and difference.
