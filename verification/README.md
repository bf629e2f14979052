# Verification of boot-operator

A Dafny model of the parts of boot-operator that carry state, rollback, encodings or protocols, and proofs about
them. `dafny verify dfyconfig.toml` checks the whole project.

The model keeps the form of the Go code. Code that changes state is a class or a method with loops
(`MoveClient`, `BootConfigReconciler`, `RegistryCacheServer`, `StatusServer`, `Selection`, `Manifest`, `BootServer`,
`AllowList`), proved against functions; what the code promises is then proved about those functions. String functions
are functions over real strings; `Text` defines Split, Join, Cut, Index, Trim and proves their laws.

- **`bootctl move`** (`Move`, `MoveRollback`, `MoveScript`, `MoveSuccess`, `MovePromise`, `MoveClient`): plan, execute,
  roll back, over two API servers whose calls may be rejected or may take effect and lose their reply.
- **Boot config reconcilers** (`BootConfigController`, `BootConfigConvergence`, `BootConfigSettling`,
  `BootConfigLivelock`, `BootConfigReconciler`): API server, lagging cache, watch notices, work queue and reconciles in four separate steps.
- **Registry cache** (`RegistryCache`, `RegistryCacheServer`): any number of request threads and the cleaner,
  interleaved at every critical section.
- **Selection of a boot config** (`Selection`, `SelectionProofs`).
- **Status of a ServerBootConfiguration** (`StatusMachine`, `StatusProofs`, `StatusServer`): reconciles and requests in
  separate Gets, from a cache that lags behind the API server, and merge patches.
- **Image references** (`Reference`, `ReferenceProofs`, `ReferenceRoundTrip`, `ReferenceNames`): the grammar of
  github.com/distribution/reference v0.6.0 and its normalisation, written out, and what boot-operator builds on them.
- **Printers and parsers** (`ImageUrl`, `UkiPath`, `UkiUrl`, `UkiReference`, `AuthHeader`, `AllowList`, `BootServer`), and their
  composition from a specification to the proxy (`Manifest`, `PublishedUrls`, `DefaultUki`).

## Where the code and its documentation disagree

The model follows the code.

- docs/usage/bootctl.md:29 promises that the target is restored after any error. For every listing,
  `MoveScript.RestoredByScript` decides from the objects and the script of faults whether it is. `MoveScript.AlwaysRestoresIff`
  says over which faults it always is: over none at all for moves in general, since a move may fail by itself while
  creating and then one rejected delete is enough, and over at most one rejected call for moves that would succeed on a
  calm network; never when a reply may be lost.
- The same line says that a CR with an identical specification, or a secret that is present, is enough. The code compares
  everything that `clearFields` leaves, and the secret must be equal (`MovePromise.MoveSucceedsIff`). On the other hand
  the Get decodes over a copy of the source object (cmdutils/move.go:95-97), so a CR that lacks fields in the target
  passes for equal (`MoveSuccess.PassesForEqualIff`, `MoveSuccess.LostFieldPasses`).
- Two absent CRs that share one missing secret pass a dry run and fail the move (`MoveSuccess.SucceedsIff`).
- server/helper.go:150 calls a branch unreachable. Two configs of one maintenance configuration reach it
  (`SelectionProofs.ReachableForSharedOwner`); `SelectionProofs.UnexpectedIff` says exactly when.
- A failed read of the ignition secret is swallowed by the HTTP reconciler, and the wrong status stays
  (`BootConfigConvergence.SwallowedErrorStays`).
- A status patch is a Get, which reads a cache, and a merge patch without an optimistic lock. A ServerBootConfiguration is
  kept from being Ready with a failed image validation only as long as reconciles are serialised and read objects that
  are up to date, for HTTP and PXE alike (`StatusProofs.SoundIff`).
- Some published strings are not read back: names that end in `.efi`, names of 64 hexadecimal digits, layers without a
  sha256 digest or with a digest that cannot stand in a path, sha384 versions. The theorems that end in `Iff` name these
  cases exactly.

## Model

| member | source | states |
|---|---|---|
| `MoveRollback.RollbackIsExact` | cmdutils/move.go:28-64 | For any pattern of API failures: source and existing target objects unchanged, a dry run changes nothing, a failed move adds exactly the objects whose compensating delete was rejected and the one created without a reply |
| `MoveRollback.RestoredIff` | cmdutils/move.go:50-60 | For every world: a failed move restores the target if and only if no compensating delete was rejected and the failing create had no effect |
| `MoveScript.RestoredByScript` | cmdutils/move.go:28-64 | For every listing: the objects and the script decide beforehand whether a move succeeds and, if not, whether the target is restored, also for moves that fail by themselves |
| `MoveScript.AlwaysRestoresIff` | cmdutils/move.go:50-60 | Over a class of scripts, every failed move restores the target exactly if no reply is lost and no call is rejected; of the moves that would succeed on a calm network, exactly if no reply is lost and at most one call is rejected |
| `MoveScript.PlanScript` | cmdutils/move.go:82-178 | Its calls, known beforehand, and the script decide whether planning fails; either way it leaves both clusters alone, and if it does not fail everything needed is planned |
| `MoveScript.ExecuteScript` | cmdutils/move.go:190-227 | Where execution stops, at a fault, a taken key or a missing required owner, with how many objects created, and when one of them is unknown: exactly when the reply to a create is lost |
| `MoveRollback.FaultFreeFailureRestores` | cmdutils/move.go:50-60 | A move that fails although every call went through leaves the target as it was |
| `MoveRollback.LostReplyLeavesCR` | cmdutils/move.go:218-222 | One lost reply to a create breaks the promise to restore |
| `MoveRollback.PlanReads` | cmdutils/move.go:82-123 | Planning changes neither cluster, whatever fails |
| `MoveRollback.ExecuteGrows` | cmdutils/move.go:190-227 | Execution adds exactly the reported objects and a stray one, and touches nothing that was there |
| `MoveRollback.CleanupRemoves` | cmdutils/move.go:229-237 | Cleanup removes exactly the moved objects but those whose delete was rejected |
| `MoveSuccess.SucceedsIff` | cmdutils/move.go:82-227 | Without faults: exactly when a dry run and a real move of the listed CRs succeed |
| `MoveSuccess.SuccessMovesAll` | cmdutils/move.go:190-227 | After success every CR in scope, and the secret of each moved CR, is in the target, rehomed to the target's owner |
| `MoveSuccess.SuccessAdds` | cmdutils/move.go:190-227 | Success adds nothing but the absent CRs in scope and the missing secrets they bring |
| `MoveSuccess.PassesForEqualIff` | cmdutils/move.go:95-116 | A stored CR passes for equal exactly if every field it has is the source's |
| `MoveSuccess.LostFieldPasses` | cmdutils/move.go:95-116 | A CR that lost a field in the target is different and passes |
| `MoveSuccess.DistinctIff` | cmdutils/move.go:97-107 | The plan creates no object twice if and only if no two absent CRs bring the same missing secret |
| `MoveSuccess.NamesFaithful` | cmdutils/move.go:125-141 | With distinct UIDs the map of secret names gives every CR its own secret |
| `MoveSuccess.ExecuteSucceedsIff` | cmdutils/move.go:190-227 | Exactly when creating a list of objects succeeds, owner references included |
| `MovePromise.MoveSucceedsIff` | cmdutils/move.go:28-64 | Without faults, in literal keys: a `Move` succeeds if and only if every absent CR in scope finds its secret under the CR's namespace and the referenced name, every present one agrees, no two absent CRs bring one missing secret, and required owners are there under the CR's own namespace and name; after success CRs and secrets are in the target and nothing else is new, after failure the target is as it was |
| `MoveClient.Clients.Move` | cmdutils/move.go:28-64 | The loop form does what the specification allows, keeps existing target objects, and changes nothing in a dry run |
| `MoveClient.Clients.ObjectsToBeMoved` | cmdutils/move.go:82-123 | The planning loop computes the plan |
| `MoveClient.Clients.GetSecret` | cmdutils/move.go:143-178 | The secret to move, read under namespace and name, and every error path |
| `MoveClient.Clients.MoveObjects` | cmdutils/move.go:190-227 | The creating loop executes the plan and reports what it moved |
| `MoveClient.Clients.CleanUp` | cmdutils/move.go:229-237 | The deleting loop is the specified cleanup, errors or not |
| `MoveClient.UidToSecretName` | cmdutils/move.go:125-141 | The map built by the two loops |
| `BootConfigConvergence.NextKeeps` | internal/controller/httpbootconfig_controller.go:49-138 | Every step keeps: whatever is stale is queued, announced, or in flight with the current verdict still to be read or held |
| `BootConfigConvergence.Converges` | internal/controller/ipxebootconfig_controller.go:49-136 | Over every run: anything stale, by the cache or by the API server, is queued, announced, on track, or the news of it is on its way; and in an idle system every config is Ready exactly if it refers to no secret or to one of its namespace that exists with data under `ignition`, else in Error |
| `BootConfigConvergence.ConvergesIff` | internal/controller/httpbootconfig_controller.go:54-60 | Convergence over all runs holds exactly if the watch mapping can list and, for HTTP, the secret read fails only with NotFound |
| `BootConfigConvergence.SwallowedErrorStays` | internal/controller/httpbootconfig_controller.go:54-60 | A failed secret read leaves an idle HTTP system with a wrong status |
| `BootConfigConvergence.LostDeletionStays` | internal/controller/httpbootconfig_controller.go:119-123 | A failed list in the watch mapping loses the deletion of a secret |
| `BootConfigSettling.CanSettle` | internal/controller/httpbootconfig_controller.go:49-69 | From every state in which the cache follows the API server, for IPXE with every verdict Ready, some run without writes and faults reaches idle |
| `BootConfigSettling.SettlesIff` | internal/controller/ipxebootconfig_controller.go:54-59 | Some run to idle exists exactly if the flavour is HTTP or every verdict is Ready |
| `BootConfigLivelock.LivelockIff` | internal/controller/ipxebootconfig_controller.go:49-136 | Once the news has been delivered, some schedule without writes and faults is busy for ever exactly if the flavour is IPXE and some verdict is not Ready: otherwise every schedule comes to rest |
| `BootConfigLivelock.EndlessStarves` | internal/controller/httpbootconfig_controller.go:49-138 | From every state in which the cache follows the API server: a schedule that is busy for ever, for IPXE with every verdict Ready, never delivers some of the news that was waiting at its start |
| `BootConfigLivelock.StarvedLoops` | internal/controller/httpbootconfig_controller.go:54-57 | Kept from the deletion of a config, the HTTP reconciler can retry its patch for ever |
| `BootConfigLivelock.StarvedIsReachable` | internal/controller/httpbootconfig_controller.go:97-109 | Deleting a config before its first reconcile leads there |
| `BootConfigLivelock.StepDescends` | internal/controller/httpbootconfig_controller.go:49-138 | Every step descends in a measure over bad reconciles, wrong statuses, stream, notices, queue and phases |
| `BootConfigReconciler.Operator.EnsureIgnition` | internal/controller/httpbootconfig_controller.go:71-86 | Ready exactly without a reference or with the referenced secret of the namespace read and holding data under `ignition`, otherwise Error; and an error exactly for the state Error |
| `BootConfigReconciler.Operator.PatchState` | internal/controller/httpbootconfig_controller.go:97-109 | The status write is the patch of the protocol, for both reconcilers: nothing is sent by the HTTP reconciler for an equal state, other configs are never touched, and when it fails |
| `BootConfigReconciler.Operator.ReconcileExisting` | internal/controller/ipxebootconfig_controller.go:49-68 | What is written and when the key is queued again, for both reconcilers |
| `BootConfigReconciler.Operator.Process` | internal/controller/httpbootconfig_controller.go:33-69 | One reconcile without interference is a run of the protocol, so the results over all runs speak of it |
| `BootConfigReconciler.Operator.EnqueueReferencing` | internal/controller/httpbootconfig_controller.go:111-138 | The requests are exactly the configs of the namespace that refer to the secret |
| `BootConfigReconciler.Operator.HandleSecretNotice` | internal/controller/ipxebootconfig_controller.go:110-136 | Handling a secret event is a step of the protocol |
| `RegistryCache.CleanerUnobservable` | server/imageproxyserver.go:167-264 | For every interleaving, callers see the same hits, misses and results as without the cleaner |
| `RegistryCache.CacheSound` | server/imageproxyserver.go:167-195 | Every hit returns what was detected for that very pair, written after the detection, not later than now, and not expired |
| `RegistryCache.HitsIff` | server/imageproxyserver.go:167-195 | Over every run, the cleaner included: a lookup hits if and only if the last write for that pair is less than fifteen minutes ago, and returns what that write held |
| `RegistryCache.CacheTransparent` | server/imageproxyserver.go:167-195 | If detection depends on the pair alone, every call returns what uncached detection would |
| `RegistryCache.KeyInjective` | server/imageproxyserver.go:168-169 | The cache key determines registry and repository when the registry has no slash |
| `RegistryCacheServer.Server.GetOrDetect` | server/imageproxyserver.go:167-195 | A hit returns the entry and writes nothing; a miss returns the detection and stores it for fifteen minutes, or nothing if detection failed |
| `RegistryCacheServer.Server.Sweep` | server/imageproxyserver.go:243-258 | The two loops remove exactly the entries expired before the sampled time |
| `SelectionProofs.ChoiceCorrect` | server/helper.go:84-148 | A chosen config has a recognised owner; maintenance is preferred in maintenance, the workload otherwise, wherever in the list |
| `SelectionProofs.ChosenIff` | server/helper.go:93-152 | A config is chosen if and only if some owner is named by the server's references and not two or more are, for maintenance only, outside maintenance |
| `SelectionProofs.ChosenIs` | server/helper.go:119-148 | It is the first maintenance owner in maintenance if there is one, else the first workload owner if there is one, else the only owner that is named |
| `SelectionProofs.ResolveIs` | server/helper.go:164-188 | The first owner with a name whose configuration and server exist, or whose lookup fails otherwise, decides |
| `SelectionProofs.SelectFew` | server/helper.go:36-41 | No item is an error, a single item is chosen without any lookup |
| `SelectionProofs.SelectSeveral` | server/helper.go:43-52 | Several are decided by the resolved server over namespace and first owning configuration of each item |
| `SelectionProofs.UnexpectedIff` | server/helper.go:137-152 | Exactly when the error that should not be reachable is returned |
| `SelectionProofs.UnreachableForDistinctOwners` | server/helper.go:150-152 | With distinct owners in slash-free namespaces it is unreachable |
| `SelectionProofs.ReachableForSharedOwner` | server/helper.go:34-152 | Two configs of the maintenance configuration, resolved through the cluster, make `selectBootConfig` return it |
| `SelectionProofs.KeyInjective` | server/helper.go:26-28 | The key determines namespace and name when namespaces have no slash |
| `SelectionProofs.OrderIrrelevant` | server/helper.go:34-188 | Permuting two or more configs changes neither success nor the owner key chosen nor the error |
| `SelectionProofs.OrderMattersIff` | server/helper.go:34-188 | If all owners that lead to a server lead to the same one: some permutation changes the outcome of `selectBootConfig` exactly if one owner leads there, another lookup fails with an error other than NotFound, and the server would have a config chosen |
| `Selection.SelectBootConfig` | server/helper.go:34-53 | The code computes the specified choice |
| `Selection.PreferredBootConfigIndex` | server/helper.go:84-153 | Filter and search loops compute the specified choice |
| `Selection.ResolveServer` | server/helper.go:164-188 | The first owner that leads to a server or to another error than NotFound decides |
| `Selection.ValidIndices` | server/helper.go:93-113 | The indices of exactly the recognised owners, in order |
| `Selection.OwnerSBCName` | server/helper.go:68-75 | The name in the first owner reference with API version `metal.ironcore.dev/v1alpha1` and kind `ServerBootConfiguration`, "" exactly without one |
| `StatusProofs.StatusSound` | internal/controller/serverbootconfig_helpers.go:135-157 | Over every run whose patches are computed from what the API server still stores: distinct condition types, Ready excludes ImageValidation, which implies Error and is there exactly if the last deciding patch was the error patch |
| `StatusProofs.SerialisedIsCurrent` | internal/controller/serverbootconfiguration_http_controller.go:147-169 | Serialised reconciles that read up-to-date objects compute every patch from what the API server still stores |
| `StatusProofs.SoundIff` | internal/controller/serverbootconfiguration_pxe_controller.go:166-183 | For HTTP and PXE alike, the invariants hold over all runs exactly if reconciles are serialised and read up-to-date objects |
| `StatusProofs.OvertakenUnsound` | internal/controller/serverbootconfiguration_http_controller.go:150-168 | A reconcile overtaken by an error patch between its Get and its patch ends in Ready with a failed ImageValidation, for both flavours |
| `StatusProofs.LaggingUnsound` | internal/controller/serverbootconfig_helpers.go:142-156 | So does a reconcile that starts after the error patch and reads the object from before it |
| `StatusProofs.ChildPatchSound` | internal/controller/serverbootconfiguration_http_controller.go:147-169 | The child patch keeps the invariants, removes ImageValidation exactly on Ready, and shows every child condition |
| `StatusProofs.ChildPatchWrites` | internal/controller/serverbootconfiguration_http_controller.go:155-166 | From a current base: Ready for a Ready child, Error for a child in Error, else the state stays; the conditions are the child's and those of other types, without `ImageValidation` on Ready |
| `StatusProofs.ErrorPatchWrites` | internal/controller/serverbootconfig_helpers.go:147-156 | From a current base: Error, the one failed `ImageValidation` with message and generation, all other conditions as they were |
| `StatusProofs.RequestWritesCondition` | server/bootserver.go:517-545 | From a current base: a delivery sets the condition of its type to true, and leaves the state and all other conditions |
| `StatusProofs.SetKeeps` | server/bootserver.go:547-556 | Setting a condition keeps types distinct, keeps the other conditions, and adds just that type |
| `StatusServer.UpdateCondition` | server/bootserver.go:547-556 | The loop overwrites the condition of that type or appends it |
| `StatusServer.ServerBootConfiguration.PatchWithError` | internal/controller/serverbootconfig_helpers.go:145-156 | The new status after the error patch, as a merge against what was read |
| `StatusServer.ServerBootConfiguration.PatchFromChild` | internal/controller/serverbootconfiguration_http_controller.go:147-169 | The new status after the child patch, as a merge against the given base |
| `ReferenceProofs.ParseNormalizedPrint` | internal/controller/serverbootconfig_helpers.go:38-57 | Parsing undoes printing a normalised name with any tag and digest, but for bare identifiers |
| `ReferenceProofs.FamiliarNormalizes` | internal/controller/serverbootconfig_helpers.go:44-54 | A familiar name is a valid name, and stands for itself unless it starts with a Docker Hub domain |
| `ReferenceRoundTrip.RoundTripsIff` | internal/controller/serverbootconfig_helpers.go:38-66 | Splitting and printing an image reference round-trips exactly if the digest is not sha384 and the name does not begin with a Docker Hub domain |
| `ReferenceRoundTrip.RegistryImageSays` | internal/controller/serverbootconfig_helpers.go:38-57 | An image with a registry: name and registry as written, ports included; the version is the tag, without one the digest, without either `latest` |
| `ReferenceRoundTrip.HubPathSays` | internal/controller/serverbootconfig_helpers.go:38-57 | A path whose first component has no dot, colon or upper-case letter and is not `localhost` is an image of registry-1.docker.io under its own name |
| `ReferenceRoundTrip.LibraryImageSays` | internal/controller/serverbootconfig_helpers.go:38-57 | A name alone is an image of registry-1.docker.io under its own name |
| `ReferenceRoundTrip.HubDomainSays` | internal/controller/serverbootconfig_helpers.go:38-57 | `docker.io/` and `index.docker.io/` in front are dropped, and `library/` before a single component |
| `ReferenceRoundTrip.Reparse` | internal/controller/serverbootconfig_helpers.go:59-66 | What the printed reference parses to, for every name and version |
| `ReferenceRoundTrip.SameRegistryIff` | internal/registry/validation.go:40-52 | The registry of the bare name is that of the printed reference, exactly if the name is not a 64-digit hexadecimal string |
| `ReferenceRoundTrip.RegistryHasNoSlash` | internal/registry/validation.go:40-52 | Extracted registries have no slash, as the cache key needs |
| `AllowList.IsInList` | internal/registry/validation.go:67-84 | The loop decides membership of the normalised registry in the normalised items |
| `AllowList.UnionOfLists` | internal/registry/validation.go:67-84 | The list `a,b` accepts exactly the union, and for an empty half the empty registry |
| `AllowList.AcceptsItems` | internal/registry/validation.go:67-84 | Exactly which registries a list of items accepts |
| `AllowList.DefaultAllows` | internal/registry/validation.go:86-95 | Without a list exactly ghcr.io is allowed, in any case |
| `AllowList.ListAllows` | internal/registry/validation.go:67-95 | With a list exactly the registries equal to an item up to surrounding space, case and the three names of Docker Hub |
| `AllowList.ValidIff` | internal/registry/validation.go:97-110 | An image is valid exactly if its registry can be extracted and is allowed |
| `AllowList.OrderIrrelevant` | internal/registry/validation.go:67-95 | Order and repetition of items do not matter |
| `AllowList.VerdictRespectsAliases` | internal/registry/validation.go:54-95 | Case and Docker Hub aliases of the registry do not matter |
| `AllowList.NormalizeIdempotent` | internal/registry/validation.go:54-65 | Normalisation is idempotent |
| `AllowList.SpacesIrrelevant` | internal/registry/validation.go:76-79 | Spaces around an item do not matter |
| `AllowList.ControllerAndProxyAgree` | internal/registry/validation.go:86-110 | The proxy accepts what the controllers validated and conversely, with the two exceptions named |
| `ImageUrl.UnescapeEscape` | internal/controller/serverbootconfig_helpers.go:68-77 | Decoding undoes percent-encoding, for every byte string |
| `ImageUrl.ParseEncode` | internal/controller/serverbootconfig_helpers.go:71-77 | Form decoding undoes form encoding, for every list of settings |
| `ImageUrl.ImageURLRoundTripsIff` | server/imageproxyserver.go:521-550 | The proxy reads back name, version and digest exactly if none is empty and the name is a valid reference that does not end in `.efi` |
| `ImageUrl.ImageURLInjective` | internal/controller/serverbootconfig_helpers.go:71-77 | Different layers or images never get the same URL |
| `ImageUrl.ImageURLIs` | internal/controller/serverbootconfig_helpers.go:71-77 | The URL written out: `/image?imageName=...&layerDigest=...&version=...`, values escaped |
| `ImageUrl.EscapeIs` | internal/controller/serverbootconfig_helpers.go:71-77 | What each byte is escaped to |
| `UkiUrl.ImagePath` | server/imageproxyserver.go:270 | The path of an image URL is `/image`, which the proxy serves |
| `UkiPath.UkiPathRoundTripsIff` | server/imageproxyserver.go:301-335 | The proxy reads image and digest back from a UKI path exactly if the image is a valid reference and the digest a slash-free sha256 digest |
| `UkiPath.UkiURLIs` | internal/controller/serverbootconfiguration_http_controller.go:201-202 | The URL of a sha256 digest written out |
| `UkiPath.UkiPathSays` | server/imageproxyserver.go:301-335 | All fields read from the path of a sha256 digest |
| `UkiPath.SplitLast` | server/imageproxyserver.go:303-309 | Splitting and joining all but the last segment cuts at the last slash |
| `UkiUrl.UkiURLRoundTripsIff` | internal/controller/serverbootconfiguration_http_controller.go:201-203 | From the published URL, cut at query and fragment and decoded, the proxy reads back image and digest exactly if the image is a valid reference and the digest a sha256 digest without `/ ? # %`, spaces and control characters |
| `UkiUrl.RequestIs` | server/imageproxyserver.go:281-284 | The path a request for a UKI URL carries |
| `UkiUrl.DecodeBehind` | internal/uki/oci.go:28-30 | The suffix `.efi` survives decoding, whatever stands before it |
| `ReferenceNames.AcceptedChars` | internal/registry/validation.go:40-52 | Accepted references consist of characters that need no escape in a path |
| `ReferenceNames.NameInImage` | internal/controller/serverbootconfig_helpers.go:38-57 | Every accepted image is a name with a tag and a digest behind it |
| `UkiReference.AcceptedIff` | internal/uki/oci.go:33-64 | An image is accepted with a repository if and only if it is that repository printed with a tag, a digest, or both |
| `UkiReference.ParsePrint` | internal/uki/oci.go:33-64 | Parsing undoes printing and keeps the reference, host:port registries included |
| `UkiReference.TagSeparatorPrinted` | internal/uki/oci.go:66-75 | The tag separator is found behind any repository |
| `UkiReference.RejectedWithoutTag` | internal/uki/oci.go:52-55 | No `@` and no colon after the last slash: rejected |
| `AuthHeader.ExtractIs` | server/imageproxyserver.go:97-108 | For every header, the parameter read is the part behind the first quote-delimited part that ends in its name; no match straddles a quote |
| `AuthHeader.ChallengeParams` | server/imageproxyserver.go:97-108 | Realm and service of every Bearer challenge, any suffix |
| `AuthHeader.TokenURLIff` | server/imageproxyserver.go:111-125 | The token URL is `realm?service=...&scope=repository:...:pull` for exactly that realm, service and repository if and only if the realm does not end in `service=` (or the service is the very text then misread) |
| `AuthHeader.SchemeDecides` | server/imageproxyserver.go:152-159 | A challenge is answered exactly if its scheme, up to the first blank, is Bearer in any case |
| `AuthHeader.NoRealm` | server/imageproxyserver.go:115-117 | A Bearer challenge that mentions no realm has no token URL |
| `AuthHeader.NoService` | server/imageproxyserver.go:120-124 | A Bearer challenge with a realm and no service: the realm and the pull scope alone |
| `Manifest.Target` | internal/oci/manifest.go:61-85 | The descriptor found by the two passes, or none |
| `Manifest.TargetWithDigests` | internal/oci/manifest.go:63-81 | With non-empty digests: the first cname match if any, else the first platform match |
| `Manifest.NamedIsFetched` | internal/oci/manifest.go:64-98 | With the compatibility option and a prefix that is not blank, the first descriptor whose annotations `cname` and `architecture` carry the prefix and the architecture is fetched |
| `Manifest.PlatformIsFetched` | internal/oci/manifest.go:73-98 | If there is none with a digest, the first descriptor of the platform is |
| `Manifest.NothingIsFetched` | internal/oci/manifest.go:83-85 | With neither there is no manifest |
| `Manifest.PlainIsFetched` | internal/oci/manifest.go:50-53 | What is not an index is the manifest itself |
| `Manifest.ManifestDetermined` | internal/oci/manifest.go:32-99 | The result is determined by what the registry answers |
| `Manifest.FindManifestByArchitecture` | internal/oci/manifest.go:32-99 | Every error path and the manifest returned |
| `Manifest.LayerDigests` | internal/controller/serverbootconfiguration_pxe_controller.go:250-268 | The digests of the last kernel, initramfs and squashfs layers, new or old media types written out |
| `Manifest.LastDigestReal` | internal/controller/serverbootconfiguration_pxe_controller.go:250-266 | A non-empty digest is that of the last layer with the new or the old media type |
| `Manifest.LastDigestIs` | internal/controller/serverbootconfiguration_pxe_controller.go:250-266 | The last layer with the new or the old media type decides, empty digest or not |
| `Manifest.UKIDigest` | internal/uki/oci.go:89-95 | The first layer of type `application/vnd.ironcore.image.uki`, or none |
| `PublishedUrls.GetImageDetails` | internal/controller/serverbootconfiguration_pxe_controller.go:203-228 | The URLs published for an image, or the error |
| `PublishedUrls.LayerPublished` | internal/controller/serverbootconfiguration_pxe_controller.go:215-227 | Each URL is that of the last layer of its media types, with name and version of the image |
| `PublishedUrls.NothingPublished` | internal/controller/serverbootconfiguration_pxe_controller.go:215-227 | No URL without such a layer |
| `PublishedUrls.OnlyValidated` | internal/controller/serverbootconfiguration_pxe_controller.go:231-248 | Nothing is fetched that the allow list does not admit or the registry does not resolve, and what they do is |
| `PublishedUrls.ConstructUkiURL` | internal/controller/serverbootconfiguration_http_controller.go:190-230 | The UKI URL published for an image, or the error |
| `PublishedUrls.UkiPublished` | internal/controller/serverbootconfiguration_http_controller.go:223-229 | A UKI URL is published exactly if there is a UKI layer, and it is that of the first |
| `PublishedUrls.LayerURLServedIff` | server/imageproxyserver.go:337-347 | A published layer URL of a validated image is served from the validated registry and repository for that digest, exactly but for two forms of names |
| `PublishedUrls.UkiURLServedIff` | server/imageproxyserver.go:281-347 | The same for published UKI URLs, exactly for digests that can stand in a path |
| `PublishedUrls.ImageBytes` | internal/controller/serverbootconfig_helpers.go:38-57 | Name and version are non-empty byte strings, so every published value can be encoded |
| `DefaultUki.ConstructUkiURLFromOCI` | internal/uki/oci.go:17-31 | The default UKI URL, or the error |
| `DefaultUki.RepositoryIsName` | internal/uki/oci.go:33-64 | Both parsers agree on what the name of an image is |
| `DefaultUki.DefaultServedIff` | server/bootserver.go:457-477 | The default UKI URL of a validated image is served from the validated registry and repository, exactly for digests that can stand in a path and names that are no identifiers |
| `BootServer.ClientIPs` | server/bootserver.go:418-427 | The IPs read from X-Forwarded-For: in order, exactly the non-empty items without the space around them |
| `BootServer.OneItem` | server/bootserver.go:419-425 | A header without a comma is one item, or none if blank |
| `BootServer.HeaderConcat` | server/bootserver.go:419-425 | A hop appended to the header is appended to the list |
| `BootServer.JoinedReadsBack` | server/bootserver.go:478-491 | The joined IPs of the response read back as the same list, for every header |
| `BootServer.FindConfigs` | server/bootserver.go:429-440 | The configs of the first IP with any; none exactly if every IP is unknown, has an empty list or fails |
| `BootServer.FirstHopDecides` | server/bootserver.go:429-440 | Appended hops are looked at only when nothing is found for the ones before |
| `Text.SplitJoin` | server/imageproxyserver.go:303-308 | Splitting undoes joining, for parts without the separator |
| `Text.JoinSplit` | server/imageproxyserver.go:303-308 | Joining undoes splitting, for every string |

## Left out

- HTTP serving, proxying, redirects, token requests, JSON, Ignition rendering and OCI blob fetching: what they answer is
  a parameter.
- Objects in memory are values; the model does not capture that `clearFields` and `moveObjs` write to shared Go objects.
- The group of an object in `Move` is whatever the decoded Go object carries; when the client library fills it is not
  part of the model. Decoding over a copy is modelled field by field; how it treats the elements of a list is not.
- Source and target of `Move` being one cluster, other writers during a move, finalizers on delete, and re-running a move.
- A read of the boot config itself that fails otherwise than with NotFound queues the key again and is not an action of
  the protocol.
- Rate limits and back-off of the work queue.
- The status of a ServerBootConfiguration has no writers besides the two patches; PXE and HTTP reconcilers on one object are
  covered as interleaved reconciles of one flavour, not mixed.
- Timestamps, error texts and logging.
- Case folding, spaces and references are ASCII; a character stands for one byte.
- `UkiUrl.UkiURLRoundTripsIff`: the image server serves `/httpboot` on some scheme and host, a client sends the URL as it is
  written, and redirects of the Go request multiplexer for unclean paths are not modelled.
- `ImageUrl.ImageURLRoundTripsIff`: the service URL has neither a query nor a fragment of its own.
- `AuthHeader.TokenURLIff`: the realm comes first, then the service, as registries send them; `AuthHeader.ExtractIs` holds
  for every header.
- `ReferenceRoundTrip.HubDomainSays`: paths of at most 247 characters, so that `library/` fits; longer ones are covered by
  `ReferenceProofs.ParseNormalizedPrint`.
- `ExtractServerNetworkIDs`, the field indexers, the boot server's other endpoints and `EnqueueServerBootConfigsReferencingSecret`,
  which is the filter of `EnqueueReferencing` once more: easy members.
