# provider-orgmapper, verified

A Dafny model of the Grafana side of provider-orgmapper: the text it keeps in Grafana's `orgMapping` setting, the
code that prints, reads and searches that text, and the reconciler that writes it. `dafny verify dfyconfig.toml` checks
the whole project.

Three layers, each built on the one before.

1. **The mapping text.** `BuildOrgMapping` prints tenants as `group:org:role` entries, `ResolveOrgIDs` reads them back
   and matches group patterns against claims, `OrgMappingContains` looks for an org by substring search. Printing and
   parsing are inverse to each other on exactly described sets; the matcher decides a language that is defined without it;
   the resolver, run on a printed mapping, answers exactly what the tenants ask for; the substring search has an exact
   meaning that is not quite the parser's.
2. **The serial reconciler.** A cluster is a store of tenants and Grafana's settings. `Reconcile` is one reconcile of one
   tenant under an arbitrary environment. There is an exact dichotomy: a tenant that meets `Bounded` causes at most one
   write in any run, whichever calls fail and whatever the other tenants are like; any other can be made to write without
   end. Two passes over the tenants bring silence exactly if all are bounded. A deletion whose sync goes through takes away
   exactly its own tenant's entries; one whose sync fails, or whose tenant has no external name, takes away none, and
   nothing makes up for it while the other tenants are at rest.
3. **The interleaved reconciler.** List, Get, Put and the store update are separate steps, and any number of workers and
   users take steps in any order. Other settings never change, and the mapping is always that of a store there has been.
   Ids of created tenants are unique in all that can follow, exactly if no two tenants with one id are created or on their
   way to it. While users keep still, each bounded tenant causes at most one write in any orderly schedule. Every serial run
   is one of the schedules. Unlike in the serial machine, a deletion can be undone: exactly by the Put of a worker that holds
   a text with the tenant's entries.

| file | models |
|---|---|
| Text.dfy | the parts of Go's `strings` that are used: Split, Join, Contains, TrimSpace |
| WhiteSpace.dfy | `TrimSpace` on bytes against trimming of characters |
| Fields.dfy | `escapeColon` and `splitUnescapedColon` |
| Glob.dfy | `globMatchBytes` |
| Ordering.dfy | byte order and `sort.Strings` |
| OrgMapping.dfy | `BuildOrgMapping`, reading entries, `OrgMappingContains` |
| RoundTrip.dfy | what survives printing and reading |
| Shortcut.dfy | the exact meaning of `OrgMappingContains` |
| Utf8.dfy | the matcher on bytes against a matcher on characters |
| Resolver.dfy | `ResolveOrgIDs` and the end-to-end theorem |
| Sso.dfy | the settings cell, `getOrInitSettings`, `SyncOrgMapping` |
| Reconciler.dfy | `external` with Observe, Create, Update, and the serial machine |
| Access.dfy | what a sync, in particular that of a deletion, does to everyone's access |
| Convergence.dfy | drift after a sync, write bound, silence |
| Drift.dfy | the drift check against what the mapping says |
| Creation.dfy | unique ids and who is created, serially |
| Interleaving.dfy | the machine with workers: what Grafana can hold, deletions |
| UniqueIds.dfy | unique ids when workers interleave and users edit ids |
| Workload.dfy | how often interleaved workers write |
| Limits.dfy | what breaks when a hypothesis is dropped |

The code is imperative where the source is: loops with invariants, classes for the resource in hand (`Resource`), the
external client (`External`) and Grafana's settings (`SsoClient`). Each such method is proved equal to a specification
function, and the theorems are about these functions.

## Assumptions

- A string is a sequence of bytes, one `char` a byte. The theorems hold for all `char` values.
- White space is that of `unicode.IsSpace`, as UTF-8 byte sequences.
- List returns the current store, each tenant once, in any order. Uids are distinct and never used twice.
- Tenant ids are nonempty; the resource definition enforces it (apis/tenant/v1alpha1/tenant_types.go:31-34). No theorem
  relies on it: `Convergence.Bounded`, `Creation.CreatedExactly` and `UniqueIds.Armed` name the case, and
  `Limits.EmptyIdIsCreatedForever` is what would happen without it. Orgs are nonempty by the same definition, and may
  otherwise hold any character.
- Whether a call succeeds is the environment's choice. A Put that fails changes nothing.
- The managed reconciler calls Observe, and then: removes a tenant that is being deleted and does not exist; calls Create
  for one that does not exist; calls Update for one that exists and is not up to date; does nothing otherwise. It stores
  what Update wrote, and what Create wrote if Create succeeded.
- The interleaved machine allows more than that: it may also store what a failed Create wrote, a worker may give up at any
  point, and a commit overwrites nothing but the fields a reconcile writes, whatever was stored since the worker read. The
  invariants hold all the more; the schedules that are constructed use none of it: each of their workers goes through
  Observe or the check of Create, with their real guards, then List, Get and Put, and commits what succeeded. The one
  exception is `UniqueIds.SafeExactly`: its schedule may store what a failed Create wrote, because the machine allows it.
- The clock is a parameter; `lastUpdated` is an opaque text.

## Where the code differs from what is said of it

- `OrgMappingContains` is described as a search for an entry of an org, the org being the second field
  (internal/grafana/sso.go:65-70). What it answers on any text is `Shortcut.ContainsOnText`: whether the colon-separated
  pieces of the org stand in one run between others, in some piece between commas. So it also says yes if the org stands
  behind the last colon of a group (`Shortcut.ContainsAgainstParser`) or is a part of another org with a colon
  (`Drift.OrgOfTwoPieces`), and says no to an escaped org with a colon that resolves (`Limits.EscapedOrgIsNotFound`), which
  is why `Resolver.ResolvedOrgIsContained` is about colon-free ones.
- The drift check is said to report a tenant that is missing from the mapping
  (internal/controller/tenant/tenant.go:350-351). For a colon-free org, whom it reports is missing
  (`Drift.ReportedIsMissing`). A tenant with a missing entry is reported if and only if the text does not display its org in
  the sense above, whoever wrote the text (`Drift.MissingIsReportedIff`). Three ways to be missing without being reported:
  `Drift.HiddenByASharedOrg`, `Drift.HiddenBehindAColon`, `Drift.HiddenInsideAnOrg`; on mappings of well-formed tenants
  there are only the first two (`Drift.DisplayedOnWellFormed`). An Update whose sync failed is then never made up for
  (`Drift.FailedUpdateIsForgotten`).
- An org with a comma is never found (`Shortcut.OrgWithCommaIsNeverFound`), so its tenant, if it has groups, is updated for
  ever (`Limits.CommaOrgWritesForever`). `Convergence.OneWriteExactly` draws the line.
- Deletion is said to remove the tenant from the mapping (internal/controller/tenant/tenant.go:198-201). It does so exactly
  if the tenant has its external name and the sync succeeds, or had nothing to remove (`Access.DeletionExactly`).
- The comment on `BuildOrgMapping` (internal/grafana/sso.go:81-84) names viewers and editors; the code prints admins, too.
- `globMatch` speaks of one character for `?` (internal/grafana/resolve.go:62-64); the code takes one byte. One `?` does not
  match the two bytes of an accented letter (`Utf8.OneCharacterTwoBytes`); the two readings agree, for all patterns, exactly
  on ASCII texts (`Utf8.BytesMatchLikeCharacters`), and on every text for patterns without `?` (`Utf8.WithoutQuestionMark`).
- Two new tenants with the same tenant id refuse each other for good (`Limits.RivalsBlockEachOther`). Exactly which new
  tenants can be created is `Creation.CreatedExactly`.
- An edited tenant id is not checked (internal/controller/tenant/tenant.go:262-277), so ids of created tenants need not be
  unique (`Limits.EditedIdIsNotChecked`). Serially an edit is safe if and only if it does not give a created tenant the id of
  another created one (`Creation.EditIsSafeExactly`). With interleaved workers it must neither do so to tenants that are on
  their way to creation: past the check, or about to check an id that is not theirs any more
  (`UniqueIds.EditIsSafeExactly`).

Four more lemmas in Limits.dfy show single steps at which a hypothesis matters: `OutsideWriterCausesAWrite`,
`UserEditCausesAWrite`, `NotAMapNeverRests`, `StaleListAdmitsADuplicate`.

## Model

| member | source | states |
|---|---|---|
| Text.TrimRemoves | internal/grafana/resolve.go:40 | trimming cuts a slice out of the text, and what it cuts off holds no colon, comma, backslash or letter; it cuts in front exactly if the text begins with white space |
| Text.TrimOfMarkedEnd | internal/grafana/resolve.go:40 | a text that ends in a letter loses leading white space only, all of it |
| Text.TrimKeepsDelimited | internal/grafana/sso.go:72-74 | `:o:` occurs in a piece exactly if it occurs in the trimmed piece |
| Text.SplitOnConcat | internal/grafana/resolve.go:39 | splitting at a separator distributes over it, for all texts |
| Text.SplitOnJoin | internal/grafana/sso.go:101 | splitting a join of comma-free pieces gives the pieces back |
| Text.JoinOfSplit | internal/grafana/sso.go:101 | joining the pieces of any text gives it back; joining nothing gives the empty text |
| WhiteSpace.TrimOfCharacters | internal/grafana/resolve.go:40 | trimming the UTF-8 bytes of any text is taking the white space of `unicode.IsSpace` off both ends, character by character |
| WhiteSpace.BlankIsTrimmed | internal/grafana/resolve.go:40 | a blank in front of or behind any bytes, valid or not, makes no difference |
| Fields.SplitUnescapedColon | internal/grafana/resolve.go:100-119 | the one-pass scanner computes the recursive splitting of the text, for every text |
| Fields.PrintAfterParse | internal/grafana/resolve.go:100-119 | escaping the fields of any text and joining them with colons gives the text back |
| Fields.ParsedIsPrintable | internal/grafana/resolve.go:100-119 | no field of any text but the last ends in a backslash |
| Fields.ParseAfterPrint | internal/grafana/sso.go:107-109 | splitting a printed field list gives it back if and only if no field but the last ends in a backslash |
| Fields.SplitIsBijection | internal/grafana/resolve.go:98-119 | the splitter is injective, and its range is exactly the printable lists |
| Fields.EscapeKeepsOut | internal/grafana/sso.go:104-109 | escaping adds and removes no byte but colon and backslash |
| Glob.GlobMatch | internal/grafana/resolve.go:69-96 | terminates, and returns true if and only if the text can be cut into one piece per pattern byte, arbitrary for `*`, one byte for `?`, the byte itself otherwise |
| Glob.ConcatPattern | internal/grafana/resolve.go:69-96 | p+q matches s if and only if some cut of s matches p, then q |
| Glob.DoubleStar | internal/grafana/resolve.go:72-82 | `**` and `*` match the same texts in every context |
| Glob.MatchesItself | internal/grafana/resolve.go:88-92 | every pattern matches itself |
| Glob.LiteralPattern | internal/grafana/resolve.go:88-92 | a pattern without wildcards matches itself and nothing else |
| Glob.PrefixPattern | internal/grafana/resolve.go:73-82 | for p without wildcards, `p*` matches exactly the texts that begin with p, and `*p` those that end with it |
| Glob.OneByteBetween | internal/grafana/resolve.go:83-87 | for p and q without wildcards, `p?q` matches exactly p, one byte, q |
| Glob.GeneralizedMatchesMore | internal/grafana/resolve.go:71-93 | turning literals into `?` or `*`, or `?` into `*`, loses no match |
| Utf8.BytesMatchLikeCharacters | internal/grafana/resolve.go:62-67 | matching the UTF-8 bytes of pattern and text is matching their characters, for every pattern, if and only if the text is ASCII |
| Utf8.OneCharacterTwoBytes | internal/grafana/resolve.go:83-87 | `?` matches one accented letter as a character, not as its bytes; `??` matches the bytes |
| Utf8.WithoutQuestionMark | internal/grafana/resolve.go:62-96 | for a pattern without `?`, matching the UTF-8 bytes is matching the characters, on every text |
| Ordering.LessMeaning | internal/grafana/resolve.go:58 | the order: a comes before b if and only if, where they first differ, a ends or has the lesser byte |
| Ordering.SortStrings | internal/grafana/resolve.go:58 | the result is the strictly sorted listing of the elements: of any two results, where they first differ, the earlier one ends or has the lesser byte |
| Ordering.SortedListingIsUnique | internal/grafana/resolve.go:58 | a set has only one strictly sorted listing |
| OrgMapping.BuildOrgMapping | internal/grafana/sso.go:88-102 | the loops print the triples of the tenants, in order, joined by commas |
| OrgMapping.PrintedInOrder | internal/grafana/sso.go:88-102 | among the entries of other tenants, those of one are, position by position, `group:org:Viewer` of its viewers, then `:Editor` of its editors, then `:Admin` of its admins, groups escaped, whatever bytes the fields hold |
| OrgMapping.EmptyMapping | internal/grafana/sso.go:88-102 | no tenants, no text |
| OrgMapping.ParsedMeaning | internal/grafana/resolve.go:39-45 | a triple is read if and only if some trimmed piece between commas has exactly its group, org and role as its fields |
| OrgMapping.TriplesMeaning | internal/grafana/sso.go:90-99 | a triple is printed if and only if some tenant with that org gives that group that role |
| OrgMapping.ParseConcat | internal/grafana/resolve.go:39-44 | reading m1 + "," + m2 is reading m1, then m2, for all texts |
| OrgMapping.OrgMappingContains | internal/grafana/sso.go:67-79 | returns true if and only if some trimmed piece between commas holds `:org:` |
| RoundTrip.LeadingSpaceOfEntry | internal/grafana/sso.go:92 | a printed entry begins with white space exactly if its group does, and as much of it |
| RoundTrip.EntryRoundTrip | internal/grafana/sso.go:92-98 | trimming and splitting a printed entry gives its three fields back if and only if the group has no leading white space, group and org do not end in a backslash, and the org has no colon |
| RoundTrip.ParsePrintedTriples | internal/grafana/resolve.go:39-44 | a printed list of well-formed triples reads back as that list |
| RoundTrip.MappingRoundTrip | internal/grafana/sso.go:88-102 | the mapping of well-formed tenants reads back as their triples |
| RoundTrip.ReadBackInOrder | internal/grafana/sso.go:88-102 | what is read back of well-formed tenants is, tenant by tenant and position by position, its viewers as Viewer, then its editors as Editor, then its admins as Admin |
| RoundTrip.MappingIsInjective | internal/grafana/sso.go:88-102 | well-formed tenants with different triples print differently |
| Shortcut.EscapedPieces | internal/grafana/sso.go:107-109 | between colons, escaping puts a backslash behind every piece but the last |
| Shortcut.ContainsOnText | internal/grafana/sso.go:65-79 | for every text and every o: the search finds o if and only if, in some trimmed piece between commas, its colon-separated pieces are a run with a piece before and a piece behind |
| Shortcut.ContainsMeaning | internal/grafana/sso.go:67-109 | for all tenants and every o: the search on their mapping finds o if and only if o has no comma and its colon-separated pieces are a run of those of some entry, with a piece before and a piece behind; of an entry's group every piece but the last has a backslash added |
| Shortcut.ContainsColonFree | internal/grafana/sso.go:67-109 | for a colon-free o these are three ways: o is a piece of the org, or stands behind the last colon of the group, or is what stands between two colons of the group with a backslash added |
| Shortcut.ContainsAgainstParser | internal/grafana/sso.go:65-79 | on well-formed tenants the search finds exactly what the parser finds and what stands behind the last colon of a group |
| Shortcut.PrintedOrgIsFound | internal/grafana/sso.go:70-78 | a tenant with a group and a comma-free org is found in every mapping printed with it, whatever bytes any field holds |
| Shortcut.OrgWithCommaIsNeverFound | internal/grafana/sso.go:71-78 | an org with a comma is found in no text |
| Resolver.ResolveOrgIDs | internal/grafana/resolve.go:31-60 | returns an org if and only if some entry of that org has a group that, as a pattern, matches some claim, as a text; in ascending byte order, each once |
| Resolver.ResolveUnionOfMappings | internal/grafana/resolve.go:31-60 | resolving m1 + "," + m2 is the sorted union of the results, for all texts |
| Resolver.ResolveUnionOfClaims | internal/grafana/resolve.go:46-55 | resolving for c1 + c2 is the sorted union of the results |
| Resolver.ResolveIsMonotone | internal/grafana/resolve.go:31-60 | more pieces and more claims lose no org |
| Resolver.ResolveDependsOnSets | internal/grafana/resolve.go:31-60 | the result depends on the set of pieces and the set of claims only |
| Resolver.ResolvedOrgIsContained | internal/grafana/resolve.go:39-55 | for every text, each colon-free org that resolves is found by the substring search |
| Resolver.ResolvePrintedMapping | internal/grafana/resolve.go:24-60 | for well-formed tenants, resolving their mapping gives exactly the sorted list of orgs of tenants with a group that matches a claim |
| Resolver.ResolvesForMembers | internal/grafana/resolve.go:24-60 | for well-formed tenants an org resolves if and only if some tenant of the org has, among its viewers, editors or admins, a group by which some claim can be cut into fitting pieces |
| Resolver.PrefixGroupGrants | internal/grafana/resolve.go:46-49 | an entry for the group `p*` gives its org to exactly the claims that begin with p |
| Sso.GetOrInitSettings | internal/grafana/sso.go:113-128 | an absent provider gives the empty map; a failed Get and a payload that is no map give an error |
| Sso.SyncOrgMapping | internal/grafana/sso.go:47-63 | succeeds if and only if Get and Put do and the payload is a map or absent; then the text under the key `orgMapping` is the mapping of the tenants and every other key is as before; otherwise nothing changed |
| Reconciler.SlicesEqual | internal/controller/tenant/tenant.go:421-434 | decides equality of lists |
| Reconciler.Resource.SyncStatus | internal/controller/tenant/tenant.go:378-389 | each of the seven fields of the status becomes that of the spec, the time is the clock's; nothing else changes |
| Reconciler.Resource.IsUpToDate | internal/controller/tenant/tenant.go:392-418 | true if and only if the seven fields of status and spec are equal, field by field |
| Reconciler.External.SyncGrafanaOrgMapping | internal/controller/tenant/tenant.go:300-328 | the mapping becomes that of the listed tenants, less the one being deleted, if all calls succeed on a map or nothing; otherwise nothing changes; at most one Put. On well-formed tenants what can then be read is what the listed specs ask for: Viewer for viewerGroups, Editor for editorGroups, Admin for adminGroups |
| Reconciler.MappingsInOrder | internal/controller/tenant/tenant.go:306-319 | the mappings of a listing are, in its order, the orgs and groups of its specs, field by field |
| Reconciler.MappingsAround | internal/controller/tenant/tenant.go:308-312 | leaving a tenant out gives the mappings of the listing without it |
| Reconciler.External.ValidateUniqueTenantID | internal/controller/tenant/tenant.go:331-348 | passes if and only if List answers and no other listed tenant has the id |
| Reconciler.External.IsGrafanaDrifted | internal/controller/tenant/tenant.go:352-375 | true if and only if Get answers, the tenant has groups, and the settings are absent, no map, or do not show the org |
| Reconciler.External.Observe | internal/controller/tenant/tenant.go:187-237 | the whole verdict, and the sync of a deletion |
| Reconciler.External.Create | internal/controller/tenant/tenant.go:239-260 | refused without effect on a duplicate; otherwise name and status are set before the sync, whose failure is an error |
| Reconciler.External.Update | internal/controller/tenant/tenant.go:262-277 | status written always, settings if the sync succeeds |
| Reconciler.External.ReconcileTenant | internal/controller/tenant/tenant.go:187-277 | the calls of one reconcile have together exactly the effect of `Reconcile` on store and settings, with its number of Puts |
| Access.SyncedEntries | internal/controller/tenant/tenant.go:306-324 | after a successful sync an entry can be read back if and only if some stored spec has its org and, for Viewer, its group among viewerGroups, for Editor among editorGroups, for Admin among adminGroups |
| Access.SyncGrantsTheStore | internal/controller/tenant/tenant.go:300-328 | after a successful sync any claims resolve to exactly the orgs the listed tenants grant, whatever was written before |
| Access.SyncGrantsMembers | internal/controller/tenant/tenant.go:300-328 | after a successful sync an org resolves if and only if some stored spec of that org has a group in some role that, as a pattern, matches some claim |
| Access.DeletionKeepsTheOthers | internal/controller/tenant/tenant.go:202-207 | a deletion of a tenant with an external name, whose sync succeeds, removes the tenant and, as a multiset, exactly its entries; claims resolve to exactly what the remaining tenants grant; other settings stay |
| Access.LeftoverStays | internal/controller/tenant/tenant.go:193-207 | without an external name, or with a failed sync, the tenant is removed and the settings stay; if the others are at rest, no later run changes or writes anything |
| Access.DeletionExactly | internal/controller/tenant/tenant.go:193-207 | if claims resolved to what the store grants before a deletion, they do afterwards if and only if the tenant had its name and the sync succeeded, or it granted nothing that the others do not grant |
| Access.SharedOrgStays | internal/controller/tenant/tenant.go:308-312 | an org another tenant grants is still granted after the deletion |
| Convergence.DriftAfterSync | internal/controller/tenant/tenant.go:352-375 | after a successful sync a stored tenant counts as drifted if and only if it has groups and its org has a comma |
| Convergence.UpdateThenObserve | internal/controller/tenant/tenant.go:262-277 | Update with a successful sync, then Observe: exists, and up to date unless the tenant has groups and an org with a comma |
| Convergence.OthersStaySettled | internal/controller/tenant/tenant.go:300-328 | in every valid store, a step for one tenant changes no other tenant and makes no settled one drift |
| Convergence.StepShrinksDirty | internal/controller/tenant/tenant.go:187-277 | in every valid store no step makes any tenant need a step |
| Convergence.WriteSettles | internal/controller/tenant/tenant.go:187-277 | a step that writes takes its tenant, if bounded, off the list of those that need one |
| Convergence.WriteBound | internal/controller/tenant/tenant.go:187-328 | over any run, whichever calls fail, any set of bounded tenants causes no more writes than it has tenants that are not settled at the start, whatever the other tenants are like |
| Convergence.TotalWriteBound | internal/controller/tenant/tenant.go:187-328 | if all tenants are bounded, a run has no more writes than tenants that are not settled at its start |
| Convergence.OneWritePerTenant | internal/controller/tenant/tenant.go:187-328 | over any run a bounded tenant causes at most one write, and a settled one none |
| Convergence.OneWriteExactly | internal/controller/tenant/tenant.go:187-375 | a tenant writes at most once in every run if and only if it is bounded: it is being deleted, or the payload is no map, or it has an id or a name and no comma in its org if it has groups, or Create refuses it for good; otherwise there are runs with any number of writes |
| Convergence.QuiescentIsSilent | internal/controller/tenant/tenant.go:187-348 | if every tenant is settled or refused, no run changes or writes anything, whichever calls fail |
| Convergence.OnePass | internal/controller/tenant/tenant.go:187-348 | after every tenant had one undisturbed reconcile none is being deleted, each bounded one is settled or not created, and if all are bounded and the uncreated ones are refused the state is quiescent |
| Convergence.TwoPassesThenSilence | internal/controller/tenant/tenant.go:187-375 | after two passes from any state all later runs change and write nothing, if and only if every tenant was bounded |
| Creation.EditIsSafeExactly | internal/controller/tenant/tenant.go:262-277 | ids of created tenants stay unique in every serial run after an edit, if and only if it does not give a created tenant the id of another created one |
| Creation.CreatedExactly | internal/controller/tenant/tenant.go:239-348 | some serial run creates a new tenant unless its id is empty, the payload is no map, or a tenant that is not being deleted has its id; then none does |
| Drift.DriftMeaning | internal/controller/tenant/tenant.go:350-375 | for every state of Grafana and every tenant: drifted if and only if the tenant has groups and the text does not display its org |
| Drift.DriftWithoutText | internal/controller/tenant/tenant.go:358-374 | without settings, with a payload that is no map, or without a text under `orgMapping`, exactly the tenants with a group in some role are drifted |
| Drift.DriftOnPrinted | internal/controller/tenant/tenant.go:350-375 | on every printed mapping: drifted if and only if the tenant has groups and its org has a comma or its pieces are no inner run of an entry |
| Drift.DriftOnWellFormed | internal/controller/tenant/tenant.go:350-375 | on well-formed tenants: drifted if and only if the tenant has groups, no printed tenant with its org has any, and the org stands behind no group's last colon |
| Drift.ReportedIsMissing | internal/controller/tenant/tenant.go:350-351 | for every mapping text and colon-free org: none of the entries of a reported tenant can be read from the mapping |
| Drift.MissingIsReportedIff | internal/controller/tenant/tenant.go:350-351 | on every text, whoever wrote it: a tenant with a missing entry is reported if and only if the text does not display its org; for colon-free orgs the comment is true exactly unless an entry is missing and the org is displayed |
| Drift.DisplayedOnWellFormed | internal/grafana/sso.go:65-79 | a mapping of well-formed tenants displays an org if and only if a printed tenant with that org has groups or the org stands behind the last colon of a group |
| Drift.HiddenByASharedOrg | internal/controller/tenant/tenant.go:374 | the entry of one tenant of an org hides that another tenant of the org has none |
| Drift.HiddenBehindAColon | internal/controller/tenant/tenant.go:374 | a group `team:ops` hides that all entries of the org `ops` are missing |
| Drift.HiddenInsideAnOrg | internal/controller/tenant/tenant.go:374 | the org `b:dev` of one tenant hides that all entries of the org `dev` are missing, with neither of the two other causes |
| Drift.FailedUpdateIsForgotten | internal/controller/tenant/tenant.go:262-277 | an Update that fails to sync leaves Grafana as it was, and the tenant settled if and only if it has no groups or the text displays its org; if all are settled then, silence follows |
| Interleaving.StepKeepsHistoryInv | internal/controller/tenant/tenant.go:300-328 | each step of each worker or user keeps: other settings are the initial ones, the mapping is the initial one or that of a past store less a tenant that was being deleted |
| Interleaving.SettingsFromStart | internal/grafana/sso.go:47-63 | the same for every state that is reachable; a payload that is no map is never overwritten |
| Interleaving.NoPutNoChange | internal/grafana/sso.go:47-63 | a run without a successful Put leaves the settings alone |
| Interleaving.SerialRunIsASchedule | internal/controller/tenant/tenant.go:187-277 | every serial run, with whatever failures, is a schedule of one worker that ends idle |
| Interleaving.StaleCommitIsSeen | internal/controller/tenant/tenant.go:262-277 | a worker with an old copy stores the status of its copy, so the next Observe finds the tenant up to date if and only if the spec was not edited in between |
| Interleaving.StalePutUndoesDeletion | internal/controller/tenant/tenant.go:198-207 | with two workers, one of them with a tenant that Observe finds out of date, there is a schedule after which a deleted tenant is gone from the store and its entries are in Grafana |
| Interleaving.DeletingPutCleans | internal/controller/tenant/tenant.go:198-207 | in every reachable state the sync of a deletion, when it reaches Grafana, leaves the mapping of a recorded store without the tenant |
| Interleaving.RemovedStaysRemoved | internal/controller/tenant/tenant.go:198-207 | once a tenant is gone and no worker holds a text with it, in every later state Grafana is either as it was or holds the mapping of a store there has been, and the tenant was not in that store or was left out |
| Interleaving.DeletionIsSafeExactly | internal/controller/tenant/tenant.go:198-207 | when a tenant is gone and Grafana holds such a mapping, it does so in all reachable states if and only if no worker holds a text with the tenant |
| Interleaving.CleanAccess | internal/controller/tenant/tenant.go:308-324 | such a mapping resolves, for all claims, to exactly what a recorded store without the tenant grants |
| UniqueIds.CreatedIdsAreUnique | internal/controller/tenant/tenant.go:239-260 | in no reachable state have two stored tenants with one id both an external name, or are both on their way to one, if no edit makes such a pair |
| UniqueIds.FreshIdIsHarmless | internal/controller/tenant/tenant.go:239-277 | an edit that leaves the id, or sets one that no other stored tenant has, makes no such pair |
| UniqueIds.SafeExactly | internal/controller/tenant/tenant.go:239-348 | for every state: ids of created tenants are unique in all that can follow if and only if no two tenants with one id are both created or on their way |
| UniqueIds.EditIsSafeExactly | internal/controller/tenant/tenant.go:262-277 | an edit is safe, whatever follows, if and only if the edited tenant makes no such pair with another |
| Workload.OnePutPerTenant | internal/controller/tenant/tenant.go:187-328 | over any interleaved schedule in which users keep still, no tenant has two workers and what follows a successful Put is stored, a bounded tenant causes at most one Put, and a settled one none |
| Limits.OneTenantResolvesIffWellFormed | internal/grafana/resolve.go:24-60 | for one tenant with one group, no wildcards: the group's member is granted the org by the resolver if and only if group and org are well formed, so each hypothesis of the end-to-end theorem is needed |
| Limits.CommaOrgWritesForever | internal/controller/tenant/tenant.go:374 | a created tenant with groups and an org with a comma causes a write at every reconcile |
| Limits.EmptyIdIsCreatedForever | internal/controller/tenant/tenant.go:250 | a tenant with an empty id is created, with a write, at every reconcile |
| Limits.RivalsBlockEachOther | internal/controller/tenant/tenant.go:337-346 | two new tenants with one id stay uncreated in every serial run |
| Limits.EscapedOrgIsNotFound | internal/grafana/sso.go:65-79 | an entry with a colon-free group and an escaped org with a colon resolves, and its org is not found |
| Limits.OnePassIsNotEnough | internal/controller/tenant/tenant.go:187-348 | a pass that visits a refused tenant before its rival is removed does not end in a quiescent state |

## Left out

- Reconciler.External.ReconcileTenant: what the managed reconciler stores after a Create that failed is not settled by this repository; the serial machine stores nothing, the interleaved one allows both.
- Resolver.ResolveOrgIDs: Go's nil and empty slices are one value here, so that "nil" is returned for no result is not stated; the same holds for the slices that `SlicesEqual` compares.
- Ordering.SortStrings: the algorithm of `sort.Strings` is the library's; an insertion sort on a list without repetitions stands for it.
- `external.Delete`: under the calling convention above Observe does the sync of a deletion, and Delete adds nothing to it.
- That all tenants are up to date does not mean that the mapping is that of the store, and no such thing is claimed: the drift check looks for orgs only, and Update passes over a failed sync.
- `connector`, `extractConfig`, `Setup`, `cmd/provider` and the config controller: wiring of libraries that are not part of this model.
- The HTTP client behind `SSOClient`, `NewClient` and `basePath`: Grafana is a cell that may fail.
- Retention patterns, the format of `lastUpdated`, conditions, logging, events, metrics, rate limits: no effect on store, mapping or access.
- Generated code, scheme registration, resource definitions.
