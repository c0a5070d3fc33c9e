# Session navigation, prefetch and site helpers, modelled in Dafny

The main part of this project models the layout page of a coding-assistant client. In that client each project has one or more workspace directories, and each directory holds conversation sessions. The layout page does five things, each modelled here:

- **Prefetch scheduler** (`Prefetch`): one queue per directory. At most one fetch runs at a time and at most six session ids wait. High-priority ids go to the front and low-priority ids to the back. A global token marks results that arrive after a directory or server change as stale, and stale results are never stored. The queues and the message store are fields of the class `Prefetch.Scheduler`. A fetch is split into two events: `Pump` issues it, and `Settle` delivers its outcome.
- **Session order** (`SessionOrder`): sessions touched in the last minute come first, ordered by id. The rest follow, most recently touched first.
- **Cyclic navigation** (`Navigation`): moving to the next or previous session with wrap-around, the neighbour prefetch requests this triggers, and cycling through themes and colour schemes.
- **Workspace order reconciliation** (`WorkspaceOrder`): the persisted per-project workspace order is merged with the current worktree and sandboxes. Dragging a workspace moves it to the target's index.
- **Drag state** (`WorkspaceOrder.WorkspaceState`): the id of the workspace being dragged.

The smaller parts, one module each:

- `MarkdownCache`: the 200-entry, insertion-ordered cache of the UI's markdown renderer.
- `Frontmatter`: the config loader's frontmatter line rewriter.
- `Changelog`: the console's release-notes parser.
- `FilePalette`: the command palette's list builders and highlight state.
- `PackagesMeta`, `SvelteVersions` and `JsNumber`: the svelte.dev package-registry helpers, including how a semver peer range is classified into Svelte majors.
- `Content`: blog and docs index building.
- `NumberFormat`: download-count abbreviation.
- `PackagesPage`: the packages page data.
- `Topics`: topic titles.
- `Black`: the subscription rate-limit decision.
- `Copilot`: the Copilot plugin's URL, classification and header logic.
- `ZenModels`: the scripts that split the models catalogue into eight secrets and join it back.

Shared modules:

- `Wrappers`: Option and Result.
- `Text`: the JavaScript string operations used, with `trim`'s whitespace set and ordinal string order.
- `Sorting`: a stable sort by a total preorder, standing for `Array.prototype.sort` and `toSorted`.

Where the source loops or mutates state, the model does too: methods with loops and invariants, and classes whose methods state their whole new state. Where the source computes values, the model is functions and lemmas.

Two behaviours worth naming:

- The message store is not an upsert. `reconcile(next, { key: "id" })` replaces the stored list with the fetched, sorted one, and `Prefetch.Scheduler.Store` models that.
- A session's recency is `updated ?? created`, and it is recent when that time is strictly after one minute ago. `SessionOrder.Recent` models that.

## Model

| member | source | states |
|---|---|---|
| Black.CeilDiv | resources/opencode/packages/console/core/src/black.ts:48 | `Math.ceil(x / d)` for a positive divisor: the least integer `r` with `x <= r * d` |
| Black.UsagePercent | resources/opencode/packages/console/core/src/black.ts:49 | below the limit: `-Infinity` for a zero limit, 100 for a negative limit, otherwise the ceiling of `usage * 100 / limit` |
| Black.PercentBounds | resources/opencode/packages/console/core/src/black.ts:45-50 | a non-negative usage below a positive limit gives a percentage between 0 and 100, and at least 1 when the usage is positive |
| Black.AnalyzeRollingUsage | resources/opencode/packages/console/core/src/black.ts:30-57 | an update older than the window is `ok`, 0 % and a reset of one whole window; inside the window the status is `ok` exactly when the usage is below the limit, the reset is the ceiling of the seconds until the window ends, and the percentage is the usage's share or 100 when limited |
| Black.RollingResetWithinWindow | resources/opencode/packages/console/core/src/black.ts:33-54 | with the last update inside the window and not in the future, the reset is between 0 and the window's length in seconds |
| Black.RollingMonotone | resources/opencode/packages/console/core/src/black.ts:45-56 | more usage never lifts a rate limit |
| Black.AnalyzeWeeklyUsage | resources/opencode/packages/console/core/src/black.ts:65-90 | the reset is always the ceiling of the seconds until the week ends; an update before the week started is `ok` at 0 %; otherwise `ok` exactly when the usage is below the fixed limit, with the usage's share, and 100 % when limited |
| Black.WeeklyStaleNeverLimits | resources/opencode/packages/console/core/src/black.ts:70-76 | before the week started the result does not depend on the usage |
| Topics.FindTopic | apps/svelte.dev/src/lib/topics.ts:17 | nothing is found exactly when no topic has the slug; a found topic is one of the list and has that slug |
| Topics.TopicTitle | apps/svelte.dev/src/lib/topics.ts:15-19 | a missing or empty slug gives `Svelte`; an unknown slug gives `Svelte`; a known slug gives its topic's title |
| Topics.SlugsDistinct | apps/svelte.dev/src/lib/topics.ts:6-11 | no two topics share a slug |
| Topics.TitleOfEachTopic | apps/svelte.dev/src/lib/topics.ts:6-19 | each topic's slug gives that topic's title, and a slug no topic has gives `Svelte` |
| NumberFormat.FormatWith | apps/svelte.dev/src/routes/packages/utils.ts:16-50 | zero as `0`, otherwise the sign and the magnitude's text under a rounding mode; `SignAndZero` and `LargestThreshold` state it |
| NumberFormat.FormatNumber | apps/svelte.dev/src/routes/packages/utils.ts:16-50 | `format_number` with `Math.round`; `RoundedExamples` shows it |
| NumberFormat.FormatNumberTruncated | apps/svelte.dev/src/routes/packages/utils.ts:7-15 | the documented behaviour, with the quotient truncated; `TruncatedThousands` shows it |
| NumberFormat.FirstThreshold | apps/svelte.dev/src/routes/packages/utils.ts:32-33 | the threshold found is the first one from `i` on that the magnitude reaches; none is found only when it reaches none of them |
| NumberFormat.RoundDiv | apps/svelte.dev/src/routes/packages/utils.ts:40-41 | `Math.round` gives the nearest whole quotient with halves rounding up; truncation gives the largest whole quotient not above the exact one |
| NumberFormat.OneDecimalShape | apps/svelte.dev/src/routes/packages/utils.ts:40 | the one-decimal text never ends in `.0`, and it has a decimal point exactly when the tenth is not zero |
| NumberFormat.OneDecimalValue | apps/svelte.dev/src/routes/packages/utils.ts:40 | the text reads back as the count of tenths: the whole part before the point and the tenth after it |
| NumberFormat.SignAndZero | apps/svelte.dev/src/routes/packages/utils.ts:26-44 | zero is `0`, and a negative number is `-` followed by the format of its magnitude |
| NumberFormat.LargestThreshold | apps/svelte.dev/src/routes/packages/utils.ts:32-45 | the suffix is that of the largest threshold the magnitude reaches, and the text before it is the magnitude in units of that threshold |
| NumberFormat.BelowThousand | apps/svelte.dev/src/routes/packages/utils.ts:48-49 | below a thousand the magnitude is written in full, with its sign and no suffix |
| NumberFormat.ScaledNearest | apps/svelte.dev/src/routes/packages/utils.ts:35-41 | as written, below ten units the tenths shown are the nearest to the exact quotient and from ten units on the whole number shown is the nearest |
| NumberFormat.ThresholdOf | apps/svelte.dev/src/routes/packages/utils.ts:18-33 | the threshold scan picks T from 10^12, B from 10^9, M from 10^6, K from 10^3 and none below |
| NumberFormat.DocumentedWholeExamples | apps/svelte.dev/src/routes/packages/utils.ts:7-14 | the documented examples 437, 437K and 437M are met as written |
| NumberFormat.RoundedExamples | apps/svelte.dev/src/routes/packages/utils.ts:7-41 | as written, 4370 gives `4.4K` (not the documented `4.3K`) and 43700 gives `44K` (not `43K`) |
| NumberFormat.ScaledTruncated | apps/svelte.dev/src/routes/packages/utils.ts:35-41 | with truncation, the tenths (or units) shown are the largest count not above the exact quotient |
| NumberFormat.DownThousandsTenths | apps/svelte.dev/src/routes/packages/utils.ts:35-44 | truncated, a count from 1000 to 9999 with a non-zero hundreds digit is its thousands digit, a point, that digit and `K` |
| NumberFormat.DownThousandsWhole | apps/svelte.dev/src/routes/packages/utils.ts:35-44 | truncated, a count from ten thousand to a million is its whole thousands and `K` |
| NumberFormat.DownMillionsTenths | apps/svelte.dev/src/routes/packages/utils.ts:35-44 | truncated, a count below ten million with a non-zero hundred-thousands digit is its millions digit, a point, that digit and `M` |
| NumberFormat.DownMillionsWhole | apps/svelte.dev/src/routes/packages/utils.ts:35-44 | truncated, a count from ten million to a billion is its whole millions and `M` |
| NumberFormat.TruncatedThousands | apps/svelte.dev/src/routes/packages/utils.ts:7-11 | with truncation the documented examples 437, 4.3K, 43K and 437K are all met |
| NumberFormat.TruncatedMillions | apps/svelte.dev/src/routes/packages/utils.ts:12-14 | with truncation the documented examples 4.3M, 43M and 437M are all met |
| NumberFormat.OneDecimal | apps/svelte.dev/src/routes/packages/utils.ts:40 | `toFixed(1).replace(/\.0$/, '')` of a count of tenths; `OneDecimalShape` and `OneDecimalValue` state its shape and that it reads back as the count |
| NumberFormat.Scaled | apps/svelte.dev/src/routes/packages/utils.ts:35-41 | below ten units one decimal of the quotient, from ten units on the whole quotient, under the rounding mode; `ScaledNearest` and `ScaledTruncated` state which quotient is shown |
| NumberFormat.Magnitude | apps/svelte.dev/src/routes/packages/utils.ts:30-49 | the magnitude in units of the first threshold it reaches with that suffix, or in full below a thousand; `LargestThreshold` and `BelowThousand` state it |
| PackagesPage.FindPackage | resources/svelte.dev/apps/svelte.dev/src/routes/packages/+page.server.ts:9 | the first registry entry with the name, or nothing; `FindPackageFirst` states it |
| PackagesPage.FindPackageFirst | resources/svelte.dev/apps/svelte.dev/src/routes/packages/+page.server.ts:9 | the lookup finds nothing exactly when no registry entry has the name, and otherwise the first entry with it |
| PackagesPage.Aliased | resources/svelte.dev/apps/svelte.dev/src/routes/packages/+page.server.ts:10-16 | the aliased copy is named by the alias, records it, links to `/docs/cli/<alias>`, has no repository URL and keeps the entry's other fields |
| PackagesPage.Resolve | resources/svelte.dev/apps/svelte.dev/src/routes/packages/+page.server.ts:8-19 | a definition resolves to nothing exactly when the registry lacks its name; with a non-empty alias to the aliased copy, otherwise to the registry entry itself |
| PackagesPage.Resolved | resources/svelte.dev/apps/svelte.dev/src/routes/packages/+page.server.ts:8-21 | one definition contributes at most one entry |
| PackagesPage.ArrToPackages | resources/svelte.dev/apps/svelte.dev/src/routes/packages/+page.server.ts:6-22 | never more entries than definitions |
| PackagesPage.ArrToPackagesAppend | resources/svelte.dev/apps/svelte.dev/src/routes/packages/+page.server.ts:6-22 | the definitions are resolved independently and in order: the result for `a + b` is the result for `a` followed by that for `b` |
| PackagesPage.ArrToPackagesOne | resources/svelte.dev/apps/svelte.dev/src/routes/packages/+page.server.ts:8-21 | a single definition yields its resolved entry, or nothing when it is missing from the registry |
| PackagesPage.ArrToPackagesFromRegistry | resources/svelte.dev/apps/svelte.dev/src/routes/packages/+page.server.ts:6-22 | every entry on the page is the resolution of some definition |
| PackagesPage.ArrToPackagesAllFound | resources/svelte.dev/apps/svelte.dev/src/routes/packages/+page.server.ts:6-22 | when every definition is in the registry nothing is dropped and entry `i` is definition `i`'s |
| PackagesPage.Hash | resources/svelte.dev/apps/svelte.dev/src/routes/packages/+page.server.ts:29 | the hash has the title's length; each space of the title becomes `-` and every other character is lower-cased, so it has no spaces and no upper-case ASCII letters, and a `-` exactly where the title has a space or a `-` |
| PackagesPage.HashIgnoresCase | resources/svelte.dev/apps/svelte.dev/src/routes/packages/+page.server.ts:29 | titles that agree once lower-cased have the same hash |
| PackagesPage.CategoryOf | resources/svelte.dev/apps/svelte.dev/src/routes/packages/+page.server.ts:27-32 | one featured group's category: its title, the title's hash, its description and its resolved packages |
| PackagesPage.Homepage | resources/svelte.dev/apps/svelte.dev/src/routes/packages/+page.server.ts:25-33 | one category per featured group, in order, each with the group's title, hash, description and resolved packages |
| ZenModels.KeyShape | resources/opencode/packages/console/core/script/update-models.ts:16-20 | the secret key of part `i` is `ZEN_MODELS` followed by the single digit `i + 1` |
| ZenModels.FindLine | resources/opencode/packages/console/core/script/update-models.ts:15-16 | the line found is the first that starts with the prefix; none is found only when no line starts with it |
| ZenModels.ValueOf | resources/opencode/packages/console/core/script/update-models.ts:17-19 | the text after the first `=` of the line, and empty when the line has none |
| ZenModels.ValueOfIsSplitJoin | resources/opencode/packages/console/core/script/update-models.ts:17-19 | taking the text after the first `=` is `split("=").slice(1).join("=")` |
| ZenModels.LineValue | resources/opencode/packages/console/core/script/update-models.ts:15-19 | no value exactly when no line starts with the key; otherwise the value of the first such line |
| ZenModels.ReadPart | resources/opencode/packages/console/core/script/update-models.ts:14-22 | part `i` reads exactly when its line exists and its value is non-empty, and then as that value; otherwise the error is `ZEN_MODELS<i+1> not found` |
| ZenModels.FirstErrFirst | resources/opencode/packages/console/core/script/update-models.ts:14-22 | the scan over the reads finds nothing exactly when every read succeeds, and otherwise the first that fails |
| ZenModels.ReadParts | resources/opencode/packages/console/core/script/update-models.ts:14-22 | the parts read exactly when all eight do, and then part `k` is read `k`; otherwise the error is that of the first part that cannot be read |
| ZenModels.ReadPartsNonEmpty | resources/opencode/packages/console/core/script/update-models.ts:20 | every part read back is non-empty |
| ZenModels.WriteParts | resources/opencode/packages/console/core/script/update-models.ts:41-43 | eight writes, write `i` setting secret `ZEN_MODELS<i+1>` to part `i`, in order |
| ZenModels.PullModels | resources/opencode/packages/console/core/script/pull-models.ts:7-32 | a missing or empty stage is `Stage is required`; a part that cannot be read is its error; otherwise the result succeeds exactly when the joined parts are valid, and then writes each part back to its own secret |
| ZenModels.Slice | resources/opencode/packages/console/core/script/update-models.ts:38 | `slice` between two ends within the string is the substring between them |
| ZenModels.Chunk | resources/opencode/packages/console/core/script/update-models.ts:36 | `Math.ceil(len / 8)`: the least chunk whose eight copies cover the length |
| ZenModels.SplitParts | resources/opencode/packages/console/core/script/update-models.ts:36-39 | eight parts, part `i` the slice from `chunk * i` to `chunk * (i + 1)` and the last one to the end |
| ZenModels.PartAt | resources/opencode/packages/console/core/script/update-models.ts:36-39 | each part is the value between two consecutive clamped bounds |
| ZenModels.SplitPartsJoin | resources/opencode/packages/console/core/script/update-models.ts:36-39 | joining the eight parts gives back exactly the new value |
| ZenModels.UpdateModels | resources/opencode/packages/console/core/script/update-models.ts:13-43 | a part that cannot be read is its error; the update succeeds exactly when the parts read, their join parses and the new value is valid; it then writes the eight parts of the new value, whose join is the new value |
| ZenModels.PartsNonEmpty | resources/opencode/packages/console/core/script/update-models.ts:36-39 | from 50 characters on no part is empty |
| ZenModels.ReadWrittenPart | resources/opencode/packages/console/core/script/update-models.ts:14-22 | a listing of the written secrets reads part `i` as the value written to its key |
| ZenModels.ReadListing | resources/opencode/packages/console/core/script/update-models.ts:14-22 | a listing of eight non-empty writes under their own keys reads back as the written values |
| ZenModels.ReadAllParts | resources/opencode/packages/console/core/script/update-models.ts:14-22 | when every part reads as the given value, the listing reads as exactly those values |
| ZenModels.UpdateThenRead | resources/opencode/packages/console/core/script/update-models.ts:36-43 | after an update of a value of 50 characters or more, reading the listing back gives the parts just written, and they join to the value |
| ZenModels.WrittenParts | resources/opencode/packages/console/core/script/update-models.ts:36-43 | the update's writes carry the value's parts and read back as them from 50 characters on |
| ZenModels.ShortValueLeavesEmptyPart | resources/opencode/packages/console/core/script/update-models.ts:36-39 | a nine-character value leaves the last part empty, which a later read rejects as `not found` |
| ZenModels.Key | resources/opencode/packages/console/core/script/update-models.ts:16 | the secret name `ZEN_MODELS<i + 1>`; `KeyShape` states its form |
| ZenModels.Start | resources/opencode/packages/console/core/script/update-models.ts:38 | `chunk * i`, where part `i` starts; `StartStep` states that consecutive starts are one chunk apart |
| ZenModels.Listing | resources/opencode/packages/console/core/script/pull-models.ts:14-15 | the lines of `bun sst secret list` for some writes: one `key=value` line per write, in order |
| Copilot.NormalizeDomain | resources/opencode/packages/opencode/src/plugin/copilot.ts:7-9 | the scheme is dropped, then one trailing slash; `NormalizeDomainOf` states that every written form of a host gives the host |
| Copilot.StripScheme | resources/opencode/packages/opencode/src/plugin/copilot.ts:8 | an `https://` or `http://` prefix is removed, the longer one first; any other string is unchanged |
| Copilot.StripSlash | resources/opencode/packages/opencode/src/plugin/copilot.ts:8 | exactly one trailing slash is removed, and a string without one is unchanged |
| Copilot.NormalizeDomainOf | resources/opencode/packages/opencode/src/plugin/copilot.ts:7-9 | a host written bare or with `http://`/`https://`, and with or without one trailing slash, normalises to the host itself |
| Copilot.GetUrls | resources/opencode/packages/opencode/src/plugin/copilot.ts:11-16 | both endpoints are `https://` URLs on the given domain, ending in `/login/device/code` and `/login/oauth/access_token` |
| Copilot.BaseUrl | resources/opencode/packages/opencode/src/plugin/copilot.ts:39-42 | a non-empty enterprise URL gives `https://copilot-api.` followed by its normalised domain; otherwise the public Copilot API host |
| Copilot.ZeroCosts | resources/opencode/packages/opencode/src/plugin/copilot.ts:26-37 | the same models, each with every cost set to zero and nothing else changed |
| Copilot.Loader | resources/opencode/packages/opencode/src/plugin/copilot.ts:22-46 | without an OAuth login no options are returned and the models are untouched; with one, every model becomes free and the options hold the base URL and an empty API key |
| Copilot.PartsHave | resources/opencode/packages/opencode/src/plugin/copilot.ts:61 | true exactly when a part of the kind comes before any null part; false exactly when every part is non-null and none has the kind; otherwise the scan throws |
| Copilot.Classify | resources/opencode/packages/opencode/src/plugin/copilot.ts:51-80 | an unparsable body, or one with neither `messages` nor `input`, is classified as neither vision nor agent |
| Copilot.ClassifyMessages | resources/opencode/packages/opencode/src/plugin/copilot.ts:56-65 | for a Completions body without nulls, `isAgent` holds exactly when the list is empty or the last message's role is not `user`, and `isVision` exactly when some message has an `image_url` part |
| Copilot.ItemsHaveNoNulls | resources/opencode/packages/opencode/src/plugin/copilot.ts:59-61 | when no message item's content holds a null part, and the list holds no null entries where a null entry throws (the `messages` form), the vision scan never throws and answers true exactly when some message item has a part of the kind |
| Copilot.NonArrayInputFallsBack | resources/opencode/packages/opencode/src/plugin/copilot.ts:68-79 | a Responses body whose `input` is not an array makes `.some` throw, and the classification falls back to neither vision nor agent |
| Copilot.ClassifyInput | resources/opencode/packages/opencode/src/plugin/copilot.ts:68-79 | for a Responses body whose message items have no null parts, `isAgent` holds exactly when the list is empty or the last item's role is not `user`, and `isVision` exactly when some message item has an `input_image` part |
| Copilot.OwnHeaders | resources/opencode/packages/opencode/src/plugin/copilot.ts:82-92 | the plugin always sets `User-Agent` and `X-Initiator`, and sets `Copilot-Vision-Request` exactly for a vision request |
| Copilot.Headers | resources/opencode/packages/opencode/src/plugin/copilot.ts:82-95 | the user agent, bearer token, intent and initiator headers are set; the vision header is present exactly for a vision request or when the caller sent one; `x-api-key` and `authorization` are gone; every other caller header is kept |
| Copilot.AuthorizeTarget | resources/opencode/packages/opencode/src/plugin/copilot.ts:145-154 | an enterprise login uses the normalised enterprise domain and the enterprise provider, and fails exactly when it has no URL; any other login uses `github.com` and `github-copilot` |
| Copilot.SuccessFor | resources/opencode/packages/opencode/src/plugin/copilot.ts:209-229 | a success carries the token as both refresh and access token with expiry 0, and records the provider and domain exactly for an enterprise login |
| Copilot.Step | resources/opencode/packages/opencode/src/plugin/copilot.ts:202-240 | a response that is not ok fails; a non-empty token succeeds; the poll waits exactly when there is no token and the error is absent or `authorization_pending`; any other error fails |
| Copilot.FirstDone | resources/opencode/packages/opencode/src/plugin/copilot.ts:187-241 | the index found is the first response that ends the polling, and with none found every response makes it wait |
| Copilot.Callback | resources/opencode/packages/opencode/src/plugin/copilot.ts:186-242 | the polling loop returns a result exactly when some response ends it, and that result is the first such response's outcome |
| Copilot.FirstDoneAt | resources/opencode/packages/opencode/src/plugin/copilot.ts:187-241 | a response that ends the polling, preceded only by responses that wait, is the one the loop stops at |
| Copilot.EnterpriseSuccess | resources/opencode/packages/opencode/src/plugin/copilot.ts:144-229 | an enterprise login whose first ending response carries a token records the enterprise provider and the normalised domain |
| Copilot.HasScheme | resources/opencode/packages/opencode/src/plugin/copilot.ts:8 | the two prefixes `/^https?:\/\//` matches: `https://` and `http://` |
| Copilot.ItemsHave | resources/opencode/packages/opencode/src/plugin/copilot.ts:59-74 | `some` over the list for the vision test: an item whose content is an array holding a part of the kind; a null item throws in the `messages` form and does not match in the `input` form; `ItemsHaveNoNulls` states it at the item level |
| Copilot.LastNotUser | resources/opencode/packages/opencode/src/plugin/copilot.ts:63 | `last?.role !== "user"`: true for an empty list, for a null last item and for a last item of any other role |
| Copilot.FieldKind | resources/opencode/packages/opencode/src/plugin/copilot.ts:56-76 | one form's branch: a field that is not an array throws; otherwise the vision test and the last item's role give the result; `ClassifyMessages` and `ClassifyInput` state it |
| FilePalette.Permitted | resources/opencode/packages/app/src/components/dialog-select-file.tsx:39-43 | an option passes the filter exactly when it is enabled, its id does not start with `suggested.` and is not `file.open` |
| FilePalette.Allowed | resources/opencode/packages/app/src/components/dialog-select-file.tsx:39-43 | an option is kept exactly when it is enabled, its id does not start with `suggested.` and is not `file.open`, and never more options than given |
| FilePalette.AllowedIdempotent | resources/opencode/packages/app/src/components/dialog-select-file.tsx:39-43 | filtering the allowed commands again changes nothing |
| FilePalette.AllowedSingle | resources/opencode/packages/app/src/components/dialog-select-file.tsx:39-43 | one option is kept exactly when it is permitted |
| FilePalette.AllowedAppend | resources/opencode/packages/app/src/components/dialog-select-file.tsx:39-43 | filtering works option by option: filtering two lists joined is filtering each, so the kept options stay in list order |
| FilePalette.CommandItem | resources/opencode/packages/app/src/components/dialog-select-file.tsx:45-53 | a command entry is of the command kind, in the Commands category, and carries its option |
| FilePalette.FileItem | resources/opencode/packages/app/src/components/dialog-select-file.tsx:55-61 | a file entry is of the file kind, in the Files category, and carries its path |
| FilePalette.EntryIds | resources/opencode/packages/app/src/components/dialog-select-file.tsx:45-61 | a command id never equals a file id, two command entries share an id exactly when their commands do, and two file entries exactly when their paths do |
| FilePalette.CommandItems | resources/opencode/packages/app/src/components/dialog-select-file.tsx:63 | one command entry per allowed option, in order |
| FilePalette.FileItems | resources/opencode/packages/app/src/components/dialog-select-file.tsx:97 | one file entry per path, in order |
| FilePalette.CommonIndex | resources/opencode/packages/app/src/components/dialog-select-file.tsx:36-37 | a command id has a position below five exactly when it is one of the five common commands, and that position holds it |
| FilePalette.InCommon | resources/opencode/packages/app/src/components/dialog-select-file.tsx:68 | exactly the options whose id is a common command |
| FilePalette.ByCommonPreorder | resources/opencode/packages/app/src/components/dialog-select-file.tsx:70 | comparing by position in the common list is a total preorder, so the sort is well defined |
| FilePalette.PickOptions | resources/opencode/packages/app/src/components/dialog-select-file.tsx:65-72 | when some common command is allowed the picks are a permutation of the allowed common commands, ordered by their position in the common list; otherwise they are the first five allowed commands |
| FilePalette.Picks | resources/opencode/packages/app/src/components/dialog-select-file.tsx:65-72 | the picks as command entries; `PickOptions` and `PicksAllowed` state which options they hold |
| FilePalette.PicksAllowed | resources/opencode/packages/app/src/components/dialog-select-file.tsx:65-72 | every pick is an allowed command, and a common one whenever any common command is allowed |
| FilePalette.TabOrder | resources/opencode/packages/app/src/components/dialog-select-file.tsx:77 | a non-empty active tab comes first, and the order holds exactly the tabs plus the active one |
| FilePalette.Others | resources/opencode/packages/app/src/components/dialog-select-file.tsx:77 | exactly the tabs other than the active one |
| FilePalette.FirstPathsSpec | resources/opencode/packages/app/src/components/dialog-select-file.tsx:81-87 | the collected paths are distinct and non-empty, and are exactly the non-empty paths of the tabs |
| FilePalette.FirstPathsPrefix | resources/opencode/packages/app/src/components/dialog-select-file.tsx:81-87 | later tabs never displace or reorder the paths collected from earlier tabs |
| FilePalette.Take | resources/opencode/packages/app/src/components/dialog-select-file.tsx:89 | the first `n` elements, or the whole list when it is shorter |
| FilePalette.RecentPaths | resources/opencode/packages/app/src/components/dialog-select-file.tsx:74-90 | the first five distinct non-empty paths of the tabs taken active tab first; `RecentSpec` states its bounds and `Recent` ties the loop to it |
| FilePalette.RecentSpec | resources/opencode/packages/app/src/components/dialog-select-file.tsx:74-90 | at most five distinct non-empty paths, each a tab's path, with the active tab's path first when it has one |
| FilePalette.Recent | resources/opencode/packages/app/src/components/dialog-select-file.tsx:74-90 | the loop with its `seen` set yields the file entries of the first five distinct tab paths |
| FilePalette.Items | resources/opencode/packages/app/src/components/dialog-select-file.tsx:92-99 | a blank query lists the picks then the recent files, ungrouped; any other query lists every allowed command then the search results for the trimmed query, grouped |
| FilePalette.Palette.constructor | resources/opencode/packages/app/src/components/dialog-select-file.tsx:34 | no cleanup is pending, nothing is committed and no cleanup has run |
| FilePalette.Palette.Move | resources/opencode/packages/app/src/components/dialog-select-file.tsx:101-106 | the pending cleanup runs; a highlighted command installs its own cleanup, and any other move keeps the old one |
| FilePalette.Palette.Select | resources/opencode/packages/app/src/components/dialog-select-file.tsx:115-128 | selecting nothing changes nothing; selecting an entry commits and forgets the cleanup without running it, then runs the command or opens a non-empty path |
| FilePalette.Palette.Unmount | resources/opencode/packages/app/src/components/dialog-select-file.tsx:130-133 | the pending cleanup runs on unmount exactly when nothing was selected |
| FilePalette.ByCommon | resources/opencode/packages/app/src/components/dialog-select-file.tsx:70 | the sort comparator by position in the common list; `ByCommonPreorder` states that it is a total preorder |
| FilePalette.FirstPaths | resources/opencode/packages/app/src/components/dialog-select-file.tsx:80-87 | the loop's item list: each tab's path, skipped when empty or already seen; `FirstPathsSpec` and `FirstPathsPrefix` state its properties |
| Changelog.Step | resources/opencode/packages/console/app/src/routes/changelog/index.tsx:49-60 | one pass of the loop body: a heading pushes the open section and opens a new one, a `**Thank you` line sets the skip flag, an item line outside a skipped part is added to the open section; `HeadingTitle`, `FlushedTitlesKept` and `StepsBlocks` state its effect |
| Changelog.Parse | resources/opencode/packages/console/app/src/routes/changelog/index.tsx:43-64 | the parse as a value, the lines folded through the loop body and the open section flushed; `ParseBlocks` and `ParseTitles` state what it yields |
| Changelog.ParseMarkdown | resources/opencode/packages/console/app/src/routes/changelog/index.tsx:43-64 | the loop with its mutable open section and skip flag returns the sections the line-by-line step function produces, the last open section flushed |
| Changelog.Titles | resources/opencode/packages/console/app/src/routes/changelog/index.tsx:45 | one title per section, in order |
| Changelog.FlushedTitlesKept | resources/opencode/packages/console/app/src/routes/changelog/index.tsx:55-59 | a line that is not a heading leaves every section's title as it was |
| Changelog.HeadingTitle | resources/opencode/packages/console/app/src/routes/changelog/index.tsx:50-54 | a heading closes the open section and opens one titled with the trimmed text after `## ` |
| Changelog.TitlesAppend | resources/opencode/packages/console/app/src/routes/changelog/index.tsx:51 | pushing a section appends its title to the titles |
| Changelog.StepsTitles | resources/opencode/packages/console/app/src/routes/changelog/index.tsx:49-61 | every heading opens exactly one section and the sections come out in input order |
| Changelog.ParseTitles | resources/opencode/packages/console/app/src/routes/changelog/index.tsx:43-64 | the section titles are exactly the trimmed heading texts of the body, in order |
| Changelog.NoHeadingNoSections | resources/opencode/packages/console/app/src/routes/changelog/index.tsx:57-58 | lines before the first heading contribute nothing: items there are dropped, since no section is open, so a prefix without a heading parses to no sections and the whole parse is the parse of what follows it |
| Changelog.ItemsAfter | resources/opencode/packages/console/app/src/routes/changelog/index.tsx:55-58 | the items a section collects: the trimmed text after `- ` of each item line up to the next heading or `**Thank you` line, in order |
| Changelog.Blocks | resources/opencode/packages/console/app/src/routes/changelog/index.tsx:49-61 | one section per heading, in order, titled with the heading's trimmed text and holding the items that follow it |
| Changelog.StepsBlocks | resources/opencode/packages/console/app/src/routes/changelog/index.tsx:49-61 | from any state, the loop produces the sections already closed, then the open section with the items that follow, then one section per later heading with its items |
| Changelog.ParseBlocks | resources/opencode/packages/console/app/src/routes/changelog/index.tsx:43-64 | the parse returns exactly one section per heading, with that heading's items in input order and nothing after a thanks line |
| Changelog.BlocksSkip | resources/opencode/packages/console/app/src/routes/changelog/index.tsx:57-58 | lines without a heading in front of the input change no section |
| Changelog.ThanksSuppresses | resources/opencode/packages/console/app/src/routes/changelog/index.tsx:55-58 | after a `**Thank you` line every line up to the next heading is ignored |
| Changelog.CreditMatch | resources/opencode/packages/console/app/src/routes/changelog/index.tsx:68 | a credit group, when it matches the rest of the item, yields a non-empty name of word characters and hyphens |
| Changelog.SplitFrom | resources/opencode/packages/console/app/src/routes/changelog/index.tsx:68 | the search returns the shortest single-line prefix from the given length on after which the credit ends the item, or the whole item when there is none |
| Changelog.ReleaseItem | resources/opencode/packages/console/app/src/routes/changelog/index.tsx:66-76 | without a credit the whole item is the text and the username is undefined, and this happens exactly when no single-line prefix is followed by a credit; otherwise the text is the shortest such non-empty prefix and the username is the credit's name |
| Changelog.CreditOfTail | resources/opencode/packages/console/app/src/routes/changelog/index.tsx:68 | whitespace followed by `(@name)` is a credit for that name |
| Changelog.NoCreditInText | resources/opencode/packages/console/app/src/routes/changelog/index.tsx:68 | text that does not end in whitespace cannot start the credit group |
| Changelog.CreditedItem | resources/opencode/packages/console/app/src/routes/changelog/index.tsx:66-76 | a one-line text not ending in whitespace, then optional whitespace and `(@name)`, splits into that text and the name |
| Changelog.IsHeading | resources/opencode/packages/console/app/src/routes/changelog/index.tsx:50 | a line starting with `## ` |
| Changelog.IsThanks | resources/opencode/packages/console/app/src/routes/changelog/index.tsx:55 | a line starting with `**Thank you` |
| Changelog.IsItem | resources/opencode/packages/console/app/src/routes/changelog/index.tsx:57 | a line starting with `- ` |
| Changelog.Steps | resources/opencode/packages/console/app/src/routes/changelog/index.tsx:49-60 | the loop over the lines, one `Step` each, in order; `StepsTitles` and `StepsBlocks` state what it builds |
| Changelog.Flushed | resources/opencode/packages/console/app/src/routes/changelog/index.tsx:61 | the closed sections followed by the open one, when there is one; `ParseBlocks` states the result |
| Changelog.CreditAt | resources/opencode/packages/console/app/src/routes/changelog/index.tsx:68 | the lazy group `(.+?)` can stop after `k` characters: at least one, none of them a line terminator, and the credit group matches the rest; `SplitFrom` finds the least such `k` |
| MarkdownCache.Without | packages/ui/src/components/markdown.tsx:41 | deleting a key removes exactly that key and keeps the others in order; on distinct keys the result stays distinct and is one shorter when the key was present |
| MarkdownCache.TouchSpec | packages/ui/src/components/markdown.tsx:40-49 | after `touch` the cache is still valid, the key is the newest and holds the new value, the oldest other key is evicted exactly when a new key arrives at the bound of 200, and every other entry is kept |
| MarkdownCache.EvictOldest | packages/ui/src/components/markdown.tsx:44-48 | a new key at the bound evicts the oldest-inserted key and the cache stays within the bound |
| MarkdownCache.Cache.constructor | packages/ui/src/components/markdown.tsx:13 | the cache starts empty |
| MarkdownCache.Cache.Touch | packages/ui/src/components/markdown.tsx:40-49 | the key order and entries become those of delete, set and eviction of the oldest key past the bound, and the cache stays valid |
| MarkdownCache.Cache.Render | packages/ui/src/components/markdown.tsx:61-81 | on the server nothing is rendered and the cache is untouched; a matching cached entry is returned and refreshed; a miss returns the fresh html and stores it under a non-empty key and checksum, and otherwise leaves the cache as it was |
| MarkdownCache.Lookup | packages/ui/src/components/markdown.tsx:69-71 | a hit happens exactly for a non-empty key and checksum whose entry has that checksum, and returns that entry |
| MarkdownCache.MissThenHit | packages/ui/src/components/markdown.tsx:69-79 | after a miss has stored the rendered html, the same text under the same key hits and returns it |
| MarkdownCache.TouchedKeys | packages/ui/src/components/markdown.tsx:40-48 | the key order after `touch`: the key removed and appended, then the oldest key dropped past 200; `TouchSpec` and `EvictOldest` state its properties |
| MarkdownCache.TouchedEntries | packages/ui/src/components/markdown.tsx:40-48 | the entries after `touch`: the key set to the value, then the oldest key's entry dropped past 200; `TouchSpec` states its properties |
| Frontmatter.OpenLen | packages/opencode/src/config/markdown.ts:18 | an opening `---` line, when present, fits inside the content |
| Frontmatter.FindClose | packages/opencode/src/config/markdown.ts:18 | the lazy group stops at the first position from which a line break and `---` follow, and none is found exactly when there is no such position |
| Frontmatter.MatchFrontmatter | packages/opencode/src/config/markdown.ts:18 | the captured text starts right after the opening `---` line, is followed by a line break and `---`, and no earlier position is followed by one |
| Frontmatter.WordRun | packages/opencode/src/config/markdown.ts:39 | the longest prefix of word characters |
| Frontmatter.MatchKeyValue | packages/opencode/src/config/markdown.ts:39 | a matched key is a non-empty prefix of the line that starts with a letter or underscore and holds only word characters; the value holds no line terminator and does not start with whitespace |
| Frontmatter.ValueAfterKey | packages/opencode/src/config/markdown.ts:39 | the captured value holds no line terminator and does not start with whitespace |
| Frontmatter.TrimKeepsFirst | packages/opencode/src/config/markdown.ts:27 | trimming a line that does not start with whitespace keeps its first character |
| Frontmatter.RewriteLine | packages/opencode/src/config/markdown.ts:26-61 | one pass of the loop body: the lines pushed for one frontmatter line; `OtherLinesKept`, `KeyValueKept` and `KeyValueRewritten` state its cases |
| Frontmatter.OtherLinesKept | packages/opencode/src/config/markdown.ts:26-43 | blank lines, comments, indented lines and lines the key pattern does not match are kept as they are |
| Frontmatter.KeyValueKept | packages/opencode/src/config/markdown.ts:45-61 | a key-value line whose trimmed value is empty, a block-scalar marker or quoted, or holds no colon, is kept |
| Frontmatter.KeyValueRewritten | packages/opencode/src/config/markdown.ts:54-58 | any other key-value line becomes a block scalar `key:` line followed by the trimmed value indented by two spaces |
| Frontmatter.KeyLineStart | packages/opencode/src/config/markdown.ts:27-39 | a line starting with a key character is neither indented nor a comment, so it reaches the key pattern |
| Frontmatter.RewriteLines | packages/opencode/src/config/markdown.ts:25-62 | the rewrite never loses lines |
| Frontmatter.Preprocess | packages/opencode/src/config/markdown.ts:17-19 | content without frontmatter is returned as it is |
| Frontmatter.PreprocessFrontmatter | packages/opencode/src/config/markdown.ts:17-66 | the function returns the content with the first occurrence of the captured frontmatter replaced by its rewrite |
| Frontmatter.RewriteCaptured | packages/opencode/src/config/markdown.ts:21-65 | once the frontmatter is captured, the loop and the replacement give the same result as the whole function |
| Frontmatter.RewriteFrontmatter | packages/opencode/src/config/markdown.ts:22-64 | the loop over the frontmatter's lines and the join give the rewritten frontmatter text |
| Frontmatter.PreprocessInPlace | packages/opencode/src/config/markdown.ts:17-66 | the rewrite takes the place of the captured text itself, and everything before and after it is unchanged |
| Frontmatter.ReplaceFirst | packages/opencode/src/config/markdown.ts:65 | `replace` with a string pattern: the first occurrence is replaced and a text without one is unchanged |
| Frontmatter.FirstOccurrenceIsCaptured | packages/opencode/src/config/markdown.ts:65 | replacing the first occurrence of the captured text replaces the captured text at its own position |
| Frontmatter.EarlierOccurrenceKept | packages/opencode/src/config/markdown.ts:18-65 | an occurrence of the captured text before its own position can only be dashes and line breaks, which the rewrite leaves unchanged |
| Frontmatter.ReplaceAtMatch | packages/opencode/src/config/markdown.ts:65 | replacing the first occurrence replaces the one at a given position when any earlier replacement would change nothing |
| Frontmatter.EarlierOccurrenceUnchanged | packages/opencode/src/config/markdown.ts:18-65 | a captured text that also occurs inside the opening `---` rewrites to itself |
| Frontmatter.SplitDashLines | packages/opencode/src/config/markdown.ts:22 | a text of dashes and line breaks splits on line feeds into lines of dashes and carriage returns |
| Frontmatter.KeptLine | packages/opencode/src/config/markdown.ts:26-43 | a line of dashes and carriage returns is kept as it is |
| Frontmatter.KeptLines | packages/opencode/src/config/markdown.ts:25-62 | lines of dashes and carriage returns are all kept |
| Frontmatter.CloseAt | packages/opencode/src/config/markdown.ts:18 | `\r?\n---` occurs at the position |
| Frontmatter.Untouchable | packages/opencode/src/config/markdown.ts:49 | a trimmed value that is empty, a block-scalar marker or starts with a quote, so that its line is left as it is |
| Frontmatter.Processed | packages/opencode/src/config/markdown.ts:22-64 | the frontmatter split on line feeds, rewritten line by line and joined back; `RewriteFrontmatter` and `KeptLines` state it |
| PackagesMeta.AnyMatches | apps/svelte.dev/src/lib/packages-meta.ts:400-409 | the scan over the list answers true exactly when some entry matches the package, by prefix pattern or exact name |
| PackagesMeta.IsOfficial | apps/svelte.dev/src/lib/packages-meta.ts:389-410 | a package is official when some entry of the official list matches it; `IsOfficialIff` states which packages those are |
| PackagesMeta.IsOfficialIff | apps/svelte.dev/src/lib/packages-meta.ts:389-410 | a package is official exactly when it is scoped under `@sveltejs/` or is one of the seven listed names |
| PackagesMeta.CutEnding | apps/svelte.dev/src/lib/packages-meta.ts:673 | for a non-empty ending, the ending put back restores the string; for the empty ending `slice(0, -0)` leaves nothing |
| PackagesMeta.RemoveEndingBy | apps/svelte.dev/src/lib/packages-meta.ts:670-677 | a string ending with none of the endings is unchanged; otherwise the first ending it ends with is cut once |
| PackagesMeta.RemoveOneEnding | apps/svelte.dev/src/lib/packages-meta.ts:670-677 | with one non-empty ending: the ending is cut when present and putting it back restores the input; otherwise nothing changes |
| PackagesMeta.EmptyEnding | apps/svelte.dev/src/lib/packages-meta.ts:673 | the empty ending matches every string and leaves the empty string |
| PackagesMeta.AllDefinitions | apps/svelte.dev/src/lib/packages-meta.ts:680 | a definition is in the flattened list exactly when some group holds it |
| PackagesMeta.FindIndex | apps/svelte.dev/src/lib/packages-meta.ts:680 | nothing is found exactly when no definition has the name; otherwise the index of the first one that does |
| PackagesMeta.FindByName | apps/svelte.dev/src/lib/packages-meta.ts:680 | nothing is found exactly when no definition has the name; otherwise the first definition with it |
| PackagesMeta.CloseParen | apps/svelte.dev/src/lib/packages-meta.ts:686 | the lazy second group stops at the first `)`, and no line terminator lies before it |
| PackagesMeta.LinkFrom | apps/svelte.dev/src/lib/packages-meta.ts:686 | a match has `](` right after its first group and ends at a `)` |
| PackagesMeta.StripLinks | apps/svelte.dev/src/lib/packages-meta.ts:684-690 | stripping the links never lengthens the text |
| PackagesMeta.NoLinkKept | apps/svelte.dev/src/lib/packages-meta.ts:686-689 | text without `[` is kept as it is |
| PackagesMeta.PlainPrefix | apps/svelte.dev/src/lib/packages-meta.ts:686-689 | text without `[` in front of anything is copied as it is |
| PackagesMeta.LinkFirst | apps/svelte.dev/src/lib/packages-meta.ts:686-689 | a link `[t](u)` at the front becomes `t`, and the rest is processed on its own |
| PackagesMeta.Link | apps/svelte.dev/src/lib/packages-meta.ts:686 | a link is its text and URL plus four bracket characters |
| PackagesMeta.LinkReplaced | apps/svelte.dev/src/lib/packages-meta.ts:684-690 | text before a link is copied, the link `[t](u)` becomes `t`, and the rest is processed on its own |
| PackagesMeta.LinkAt | apps/svelte.dev/src/lib/packages-meta.ts:686 | in `[t](u)` the first group stops right after `t` and the second right after `u` |
| PackagesMeta.CloseAt | apps/svelte.dev/src/lib/packages-meta.ts:686 | the lazy second group stops at the first `)` after a URL without `)` or line terminators |
| PackagesMeta.CalculateDescription | apps/svelte.dev/src/lib/packages-meta.ts:679-692 | a featured definition's non-empty description is used, otherwise the npm description (`NO DESCRIPTION!` when missing) with its links reduced to their text; putting back a removed final `.` restores that source, and a source without one is returned as it is |
| PackagesMeta.CalculateHomepage | apps/svelte.dev/src/lib/packages-meta.ts:694-696 | a missing homepage gives the empty string; a trailing `#readme` is removed and putting it back restores the homepage; any other homepage is returned as it is |
| SvelteVersions.Exactly | apps/svelte.dev/src/lib/packages-meta.ts:556-563 | a range that names one major admits major 3, 4 or 5 exactly when it is that major; `NaN` admits none |
| SvelteVersions.TrimAll | apps/svelte.dev/src/lib/packages-meta.ts:432 | each part trimmed, in order |
| SvelteVersions.Constraints | apps/svelte.dev/src/lib/packages-meta.ts:483-487 | the words kept are exactly the space-separated words that start with `<` or `>` |
| SvelteVersions.AnyHyphen | apps/svelte.dev/src/lib/packages-meta.ts:495 | true exactly when some constraint contains `-` |
| SvelteVersions.AllowsAll | apps/svelte.dev/src/lib/packages-meta.ts:521-547 | a major keeps its flag exactly when no constraint rules it out |
| SvelteVersions.Alternatives | apps/svelte.dev/src/lib/packages-meta.ts:432 | every trimmed part of an double-bar range is shorter than the range, so the recursion terminates |
| SvelteVersions.OrPiecesStep | apps/svelte.dev/src/lib/packages-meta.ts:435-440 | the parts' results are combined one part at a time, in order |
| SvelteVersions.OrAccumulate | apps/svelte.dev/src/lib/packages-meta.ts:435-440 | ORing one more part into the running result keeps the loop's invariant |
| SvelteVersions.Supports | apps/svelte.dev/src/lib/packages-meta.ts:420-668 | the classification as a value, branch by branch in the code's order; `SupportsAlternatives`, `SupportsEquals`, `SupportsEmptyAndStar`, `ComplexRange` and `SimpleRange` state its cases |
| SvelteVersions.SupportsSvelteVersions | apps/svelte.dev/src/lib/packages-meta.ts:420-668 | the function, with its result fields set branch by branch, computes the classification of the range, trying the special forms in the code's order |
| SvelteVersions.AnyAlternative | apps/svelte.dev/src/lib/packages-meta.ts:431-443 | the double-bar branch returns the OR of the classifications of the trimmed parts |
| SvelteVersions.ComplexRange | apps/svelte.dev/src/lib/packages-meta.ts:470-554 | a multi-bound range without constraints admits nothing; a narrow pre-release range admits just its major; otherwise a major is admitted exactly when no bound rules it out |
| SvelteVersions.FindNarrowMajor | apps/svelte.dev/src/lib/packages-meta.ts:497-510 | the loop finds the one major every matching constraint names, and gives up at the first disagreement |
| SvelteVersions.ApplyBound | apps/svelte.dev/src/lib/packages-meta.ts:521-546 | one bound clears the flag of each major it rules out and keeps the others |
| SvelteVersions.SingleWord | apps/svelte.dev/src/lib/packages-meta.ts:556-667 | the single-word forms in the code's order: bare major, caret, pre-release, tilde, star, wildcard, the four bounds, exact version, `.x` or `.*`; the lemmas below state what each admits |
| SvelteVersions.SimpleRange | apps/svelte.dev/src/lib/packages-meta.ts:556-667 | the single-word forms are tried in the code's order |
| SvelteVersions.SupportedOr | apps/svelte.dev/src/lib/packages-meta.ts:437-439 | a combined result admits a major exactly when one of its sides does |
| SvelteVersions.SupportsAlternatives | apps/svelte.dev/src/lib/packages-meta.ts:431-443 | a range with a double bar admits a major exactly when one of its parts does |
| SvelteVersions.OrPiecesAny | apps/svelte.dev/src/lib/packages-meta.ts:435-440 | the OR of the parts admits a major exactly when one part does |
| SvelteVersions.SupportsEquals | apps/svelte.dev/src/lib/packages-meta.ts:446-449 | a leading `=` is dropped |
| SvelteVersions.SupportsEmptyAndStar | apps/svelte.dev/src/lib/packages-meta.ts:425-599 | an empty range admits nothing, and `*` admits every major |
| SvelteVersions.OneWord | apps/svelte.dev/src/lib/packages-meta.ts:425-554 | a non-empty word without spaces, bars or a leading `=` skips the first four forms |
| SvelteVersions.BareMajor | apps/svelte.dev/src/lib/packages-meta.ts:557-563 | a bare major admits exactly that major |
| SvelteVersions.SingleWordCaretTilde | apps/svelte.dev/src/lib/packages-meta.ts:566-594 | a caret or tilde range is read through `parseInt` of the text before its first dot |
| SvelteVersions.CaretTildeMajor | apps/svelte.dev/src/lib/packages-meta.ts:566-594 | `^M...` and `~M...` admit exactly major `M` |
| SvelteVersions.DigitsDotOf | apps/svelte.dev/src/lib/packages-meta.ts:576 | digits, a dot and more: the leading major is the digits' value |
| SvelteVersions.NotAllDigits | apps/svelte.dev/src/lib/packages-meta.ts:557 | a range starting with `M.` is not a bare major |
| SvelteVersions.PreReleaseMajor | apps/svelte.dev/src/lib/packages-meta.ts:575-585 | a pre-release version `M.m.p-...` admits exactly its leading major |
| SvelteVersions.PreReleaseOf | apps/svelte.dev/src/lib/packages-meta.ts:575 | `M.m.p-tag` is a pre-release version with leading major `M` |
| SvelteVersions.ExactMajor | apps/svelte.dev/src/lib/packages-meta.ts:650-656 | an exact version `M.m.p` admits exactly its leading major |
| SvelteVersions.ExactWord | apps/svelte.dev/src/lib/packages-meta.ts:650-656 | an exact version is read by the exact-version case |
| SvelteVersions.ExactGuards | apps/svelte.dev/src/lib/packages-meta.ts:556-647 | an exact version is none of the earlier single-word forms |
| SvelteVersions.ExactOf | apps/svelte.dev/src/lib/packages-meta.ts:650 | `M.m.p` is an exact version with leading major `M` |
| SvelteVersions.WildcardMajor | apps/svelte.dev/src/lib/packages-meta.ts:601-611 | `M.x...` and `M.*...` admit exactly major `M` |
| SvelteVersions.BoundGuards | apps/svelte.dev/src/lib/packages-meta.ts:556-611 | a word starting with a comparison operator is none of the earlier forms |
| SvelteVersions.AtLeastWord | apps/svelte.dev/src/lib/packages-meta.ts:614-620 | `>=v` admits major `k` exactly when `v <= k` |
| SvelteVersions.AboveWord | apps/svelte.dev/src/lib/packages-meta.ts:623-629 | `>v` admits major `k` exactly when `v < k` |
| SvelteVersions.AtMostWord | apps/svelte.dev/src/lib/packages-meta.ts:632-638 | `<=v` admits major `k` exactly when `v >= k` |
| SvelteVersions.BelowWord | apps/svelte.dev/src/lib/packages-meta.ts:641-647 | `<v` admits major `k` exactly when `v > k` |
| SvelteVersions.SingleBoundMajors | apps/svelte.dev/src/lib/packages-meta.ts:613-647 | a single one-word bound admits major `k` as `parseFloat` of its version compares with `k` |
| SvelteVersions.MultiBoundMajors | apps/svelte.dev/src/lib/packages-meta.ts:470-554 | a multi-bound range admits nothing without constraints, just its major when it is a narrow pre-release range, and otherwise a major exactly when no bound rules it out |
| SvelteVersions.UnknownRange | apps/svelte.dev/src/lib/packages-meta.ts:667 | a word none of the forms applies to admits nothing |
| SvelteVersions.BoundMajor | apps/svelte.dev/src/lib/packages-meta.ts:500-502 | the first match of `/[<>=]+\s*(\d+)/` read with `parseInt`: a run of `<`, `>` and `=`, optional whitespace and the value of the digits after them; none when no such run reaches a digit |
| SvelteVersions.NarrowMajor | apps/svelte.dev/src/lib/packages-meta.ts:497-510 | the one major every matching constraint names, constraints without a match skipped; none at the first disagreement; `FindNarrowMajor` is proved against it |
| SvelteVersions.Excludes | apps/svelte.dev/src/lib/packages-meta.ts:521-545 | a bound rules major `k` out when `>=v` has `v > k`, `>v` has `v >= k`, `<=v` has `v < k` or `<v` has `v <= k`; a `NaN` version rules nothing out |
| SvelteVersions.PreRelease | apps/svelte.dev/src/lib/packages-meta.ts:575 | `/^([0-9]+)\.([0-9]+)\.([0-9]+)-/`: three dot-separated digit runs followed by `-`; `PreReleaseOf` states which texts match |
| SvelteVersions.ExactVersion | apps/svelte.dev/src/lib/packages-meta.ts:650 | `/^[0-9]+\.[0-9]+\.[0-9]+$/`: three dot-separated digit runs and nothing more; `ExactOf` states which texts match |
| SvelteVersions.Wildcard | apps/svelte.dev/src/lib/packages-meta.ts:602 | the wildcard pattern at the start of the range: a digit run, a dot and `x` or `*`; `WildcardMajor` states what it admits |
| SvelteVersions.FirstDotPiece | apps/svelte.dev/src/lib/packages-meta.ts:651 | `split('.')[0]`: the text before the first dot, or all of it when there is none |
| SvelteVersions.Complex | apps/svelte.dev/src/lib/packages-meta.ts:470-476 | the multi-bound test: the range contains a space and a `<` or a `>`; the `<=` and `>=` tests add nothing |
| SvelteVersions.OrPieces | apps/svelte.dev/src/lib/packages-meta.ts:432-440 | the OR over the parts, in order, starting from no major; `OrPiecesAny` states that it admits a major exactly when one part does |
| JsNumber.LeadingDigits | apps/svelte.dev/src/lib/packages-meta.ts:457-458 | the maximal run of decimal digits at the start of the text |
| JsNumber.LeadingDigitsStop | apps/svelte.dev/src/lib/packages-meta.ts:457-458 | digits followed by a non-digit form a run exactly as long as the digits |
| JsNumber.SignOf | apps/svelte.dev/src/lib/packages-meta.ts:457-458 | a literal's optional sign is the multiplier 1 or -1 and takes at most the characters there are |
| JsNumber.Mantissa | apps/svelte.dev/src/lib/packages-meta.ts:457-458 | the mantissa is a run of digits of which the counted fraction digits are a suffix |
| JsNumber.CompareTo | apps/svelte.dev/src/lib/packages-meta.ts:460-462 | comparing a parsed number with a major gives -1, 0 or 1, and nothing exactly for `NaN` |
| JsNumber.ParseFloat | apps/svelte.dev/src/lib/packages-meta.ts:523 | `parseFloat` as an exact decimal: leading whitespace and a sign are skipped, `Infinity` is read, no digits give `NaN`, otherwise the digits scaled by the exponent; `ParseFloatDigits` states the whole-number case |
| JsNumber.ParseFloatFromDigit | apps/svelte.dev/src/lib/packages-meta.ts:523 | a literal starting with a digit is read by its digits and exponent alone, with no sign and no `Infinity` |
| JsNumber.ParseFloatDigits | apps/svelte.dev/src/lib/packages-meta.ts:523 | a run of digits followed by a character that cannot continue a literal reads as that whole number |
| JsNumber.MantissaWhole | apps/svelte.dev/src/lib/packages-meta.ts:523 | digits not followed by a digit or a dot are a whole mantissa with no fraction |
| JsNumber.CompareWhole | apps/svelte.dev/src/lib/packages-meta.ts:525-527 | the comparisons of a whole number with a major are the integer comparisons |
| JsNumber.HexDigitValue | apps/svelte.dev/src/lib/packages-meta.ts:567 | a hexadecimal digit's value is below 16 |
| JsNumber.ParseInt | apps/svelte.dev/src/lib/packages-meta.ts:558 | `parseInt`: leading whitespace and a sign skipped, a `0x` prefix read as hexadecimal, no digits give `NaN`; `ParseIntDigits` states the decimal case |
| JsNumber.ParseIntDigits | apps/svelte.dev/src/lib/packages-meta.ts:558 | a run of decimal digits reads as its value |
| JsNumber.ExponentOf | apps/svelte.dev/src/lib/packages-meta.ts:523 | the exponent of a `parseFloat` literal: `e` or `E`, an optional sign and at least one digit give the signed value, anything less gives 0 |
| JsNumber.Le | apps/svelte.dev/src/lib/packages-meta.ts:460-462 | `n <= k` for a parsed number, false for `NaN`; `CompareWhole` states it for whole numbers |
| JsNumber.Lt | apps/svelte.dev/src/lib/packages-meta.ts:537-539 | `n < k` for a parsed number, false for `NaN`; `CompareWhole` states it for whole numbers |
| JsNumber.Ge | apps/svelte.dev/src/lib/packages-meta.ts:531-533 | `n >= k` for a parsed number, false for `NaN`; `CompareWhole` states it for whole numbers |
| JsNumber.Gt | apps/svelte.dev/src/lib/packages-meta.ts:525-527 | `n > k` for a parsed number, false for `NaN`; `CompareWhole` states it for whole numbers |
| JsNumber.LeadingHex | apps/svelte.dev/src/lib/packages-meta.ts:567 | `parseInt` reading a `0x` literal: the value in base 16 of the leading hexadecimal digits, with how many there are, never more than the text holds |
| Content.FormatDate | apps/svelte.dev/src/lib/server/content.ts:46-57 | a date not shaped `YYYY-MM-DD` and a month outside 1 to 12 are the two errors, with their messages; any other date gives the month's name, the day's number and the year |
| Content.FormattedDay | apps/svelte.dev/src/lib/server/content.ts:56 | the day is written without leading zeros, in at most two digits, and reads back as the day of the date |
| Content.TwoDigits | apps/svelte.dev/src/lib/server/content.ts:52-56 | two digits read as ten times the first plus the second |
| Content.FormatDateExample | apps/svelte.dev/src/lib/server/content.ts:46-57 | `2024-03-08` formats as `Mar 8 2024` |
| Content.NextSlash | apps/svelte.dev/src/lib/server/content.ts:96 | the first `/` at or after a position, and none exactly when there is no further slash |
| Content.SectionMatch | apps/svelte.dev/src/lib/server/content.ts:96 | a match starting at a slash spans a non-empty segment and ends with a non-empty last segment |
| Content.RemoveSection | apps/svelte.dev/src/lib/server/content.ts:95-97 | the slug with its second-to-last segment removed; `RemoveSectionOf`, `FewSlashesKept` and `NoMatchBefore` state its effect |
| Content.RemoveSectionOf | apps/svelte.dev/src/lib/server/content.ts:95-97 | the segment before the last one is dropped: `x/a/b` becomes `x/b` |
| Content.NoMatchBefore | apps/svelte.dev/src/lib/server/content.ts:96 | no match can start before the second-to-last slash, since two more slashes follow any earlier one |
| Content.FewSlashesKept | apps/svelte.dev/src/lib/server/content.ts:95-97 | a slug with fewer than two slashes is left as it is |
| Content.SplitAuthors | apps/svelte.dev/src/lib/server/content.ts:67-68 | there is always at least one piece, and no piece contains a comma |
| Content.FirstComma | apps/svelte.dev/src/lib/server/content.ts:67 | the first comma of a text lies right after a comma-free prefix |
| Content.SplitAuthorsCons | apps/svelte.dev/src/lib/server/content.ts:67 | a name followed by `, ` and a text not starting with a space splits off as the first piece |
| Content.JoinNoLeadingSpace | apps/svelte.dev/src/lib/server/content.ts:67 | names joined with `, ` do not start with a space when the first name does not |
| Content.SplitJoinAuthors | apps/svelte.dev/src/lib/server/content.ts:67-68 | names without commas, none but the first starting with a space, joined with `, ` split back into the same names |
| Content.Authors | apps/svelte.dev/src/lib/server/content.ts:64-75 | no author gives no authors; an author without a URL list throws; otherwise the lists must have the same length, or the mismatch error names the file, and each name is paired with the URL at its position |
| Content.PostDate | apps/svelte.dev/src/lib/server/content.ts:77 | the metadata date when there is one, otherwise the first ten characters of the file's last path segment |
| Content.Pinned | apps/svelte.dev/src/lib/server/content.ts:84 | a post is pinned exactly when its `pinnedUntil` is set and non-empty and sorts after today's date |
| Content.DerivePost | apps/svelte.dev/src/lib/server/content.ts:63-86 | a post is derived exactly when its authors and its date's format are; it then carries them and whether `pinnedUntil` sorts after today |
| Content.DeriveAll | apps/svelte.dev/src/lib/server/content.ts:62-86 | the list is derived exactly when every post is, one derived post per entry in order |
| Content.NotLtIsGe | apps/svelte.dev/src/lib/server/content.ts:92 | a date that does not sort before another sorts after it or equals it |
| Content.BlogCompare | apps/svelte.dev/src/lib/server/content.ts:87-93 | pinned posts come first; among posts of the same pinning the later date comes first, and the comparator never answers zero; `BlogLeTotalPreorder` and `SortPosts` state the order it gives |
| Content.BlogLeTotalPreorder | apps/svelte.dev/src/lib/server/content.ts:87-93 | the blog comparator orders posts as a total preorder |
| Content.SortPosts | apps/svelte.dev/src/lib/server/content.ts:87-93 | the sorted list is a permutation of the posts, with every pinned post before every unpinned one and, among posts pinned alike, dates in descending order |
| Content.BlogPosts | apps/svelte.dev/src/lib/server/content.ts:62-93 | the blog list exists exactly when every post is derived, and it is a permutation of the derived posts |
| Content.AdjustLink | apps/svelte.dev/src/lib/server/content.ts:139-144 | a next or prev link is kept exactly when its slug stays under `docs/<pkg>/`, and it is then section-free with its title kept |
| Content.TransformPage | apps/svelte.dev/src/lib/server/content.ts:136-145 | a page with its slug made section-free and its links adjusted; `PagesTransformed` states what it keeps |
| Content.TransformPages | apps/svelte.dev/src/lib/server/content.ts:129-148 | one transformed page per page, in loop order |
| Content.TransformSections | apps/svelte.dev/src/lib/server/content.ts:120-128 | one transformed section per section, in loop order |
| Content.TransformPagesCons | apps/svelte.dev/src/lib/server/content.ts:129 | the pages are transformed one at a time, in order |
| Content.SectionPagesCons | apps/svelte.dev/src/lib/server/content.ts:120-121 | the sections' pages come section by section, in order |
| Content.AllPagesCons | apps/svelte.dev/src/lib/server/content.ts:112-114 | the topics' pages come topic by topic, each under its topic's package |
| Content.AddPages | apps/svelte.dev/src/lib/server/content.ts:129-136 | pages stored one by one under their slugs, failing at the first slug already present; `AddPagesOk` and `AddPagesStores` state when it succeeds and what it stores |
| Content.AddStep | apps/svelte.dev/src/lib/server/content.ts:130-136 | storing a page whose slug is already present is the conflict error naming both files; otherwise the page is stored under its slug |
| Content.AddPagesAppend | apps/svelte.dev/src/lib/server/content.ts:112-150 | storing two runs of pages is storing the first, then the second, and a conflict in the first stops it |
| Content.StorePages | apps/svelte.dev/src/lib/server/content.ts:129-148 | the innermost loop stores each transformed page of a section in order, or raises the first conflict, and pushes the transformed pages |
| Content.StoreSections | apps/svelte.dev/src/lib/server/content.ts:120-149 | the middle loop stores the pages of every section of a topic in order and records the transformed sections |
| Content.CreateDocs | apps/svelte.dev/src/lib/server/content.ts:104-153 | the nested loops return the topics by slug and the pages by section-free slug, or the first conflict |
| Content.TopicMapStep | apps/svelte.dev/src/lib/server/content.ts:115-118 | each topic is recorded under its slug, a later one replacing an earlier one with the same slug |
| Content.DocsOf | apps/svelte.dev/src/lib/server/content.ts:104-153 | the docs index as a value, the topics by slug and the stored pages, or the first conflict; `DocsOk`, `DocsErr` and `CreateDocs` state it |
| Content.DocsErr | apps/svelte.dev/src/lib/server/content.ts:132-134 | a conflict while storing the pages makes the whole of `create_docs` throw it |
| Content.DocsOk | apps/svelte.dev/src/lib/server/content.ts:104-153 | without a conflict the result holds the topics by slug and the stored pages |
| Content.AddPagesOk | apps/svelte.dev/src/lib/server/content.ts:132-134 | storing succeeds exactly when the pages' slugs are distinct from each other and from those already present |
| Content.AddPagesStores | apps/svelte.dev/src/lib/server/content.ts:136 | a successful store keeps what was there, stores every page under its slug, and adds nothing else |
| Content.DocsConflict | apps/svelte.dev/src/lib/server/content.ts:130-136 | `create_docs` throws exactly when two pages share a section-free slug; otherwise every page is stored under its slug and nothing else is |
| Content.PagesTransformed | apps/svelte.dev/src/lib/server/content.ts:136-145 | a stored page has the section-free slug, keeps its file, title, metadata and children, and keeps a next or prev link exactly when it stays under `docs/<pkg>/` |
| Content.CreateSummary | apps/svelte.dev/src/lib/server/content.ts:155-161 | a summary keeps a document's slug, metadata and children and nothing else; `SummaryOutlineKept` states that it keeps the whole shape |
| Content.SummaryList | apps/svelte.dev/src/lib/server/content.ts:159 | one summary per child |
| Content.SummaryOutlineKept | apps/svelte.dev/src/lib/server/content.ts:155-161 | a summary has its document's shape: the bracketed walk that enters and leaves every node gives the same nodes, nesting, order, slugs and metadata |
| Content.ChildrenOutlineKept | apps/svelte.dev/src/lib/server/content.ts:159 | the children's summaries have the children's shape, node for node and level for level |
| Content.DateShaped | apps/svelte.dev/src/lib/server/content.ts:47 | `/^\d{4}-\d{2}-\d{2}$/`: ten characters, dashes at positions 4 and 7 and decimal digits elsewhere |
| Content.RemoveSectionFrom | apps/svelte.dev/src/lib/server/content.ts:96 | the leftmost match from a position on is replaced by its group; `RemoveSectionOf`, `NoMatchBefore` and `FewSlashesKept` state what that removes |
| Content.BlogLe | apps/svelte.dev/src/lib/server/content.ts:87-93 | "may come before" for the blog comparator, the comparator at most zero; `BlogLeTotalPreorder` states that it is a total preorder |
| Content.PackageOf | apps/svelte.dev/src/lib/server/content.ts:113 | `topic.slug.split('/')[1]`: the second slash-separated segment, and the text `undefined` the template literal makes of a missing one |
| Content.TransformSection | apps/svelte.dev/src/lib/server/content.ts:122-148 | a section keeps its fields and gets its pages transformed, in order; `StoreSections` records it |
| Content.TransformTopic | apps/svelte.dev/src/lib/server/content.ts:115-127 | a topic keeps its fields and gets its sections transformed under its package; `TopicMapStep` and `StoreSections` use it |
| Content.TopicMap | apps/svelte.dev/src/lib/server/content.ts:115-118 | the topics by slug, transformed, a later topic replacing an earlier one with the same slug; `TopicMapStep` states one step |
| SessionOrder.Recent | packages/app/src/pages/layout.tsx:266-271 | a session is recent exactly when `updated ?? created` is strictly after one minute before now |
| SessionOrder.Compare | packages/app/src/pages/layout.tsx:265-276 | recent sessions before the others; two recent ones by id, two others by most recent touch first; `CompareTotalPreorder` and `SortSessions` state the order it gives |
| SessionOrder.OrdinalCompare | packages/app/src/pages/layout.tsx:272 | the id comparison is zero exactly for equal ids, negative exactly when the first id is strictly smaller and non-positive exactly when it is smaller or equal |
| SessionOrder.CompareTotalPreorder | packages/app/src/pages/layout.tsx:265-276 | for any clock reading, the session comparator is a total preorder (total and transitive), so sorting with it is well defined |
| SessionOrder.SortSessions | packages/app/src/pages/layout.tsx:265-276 | sorting sessions yields a permutation of the input in which every session touched within the last minute precedes every older one, recent sessions ascend by id and older sessions descend by last-touched time (updated, else created) |
| SessionOrder.Touched | packages/app/src/pages/layout.tsx:268-269 | `time.updated ?? time.created` |
| SessionOrder.SessionLe | packages/app/src/pages/layout.tsx:265-276 | "may come before" for the session comparator at a clock reading; `CompareTotalPreorder` states that it is a total preorder |
| Text.Trim | resources/opencode/packages/console/app/src/routes/changelog/index.tsx:52 | `trim` leaves no whitespace at either end |
| Text.TrimSpan | packages/opencode/src/config/markdown.ts:27 | `trim` keeps one contiguous span of the text and drops only whitespace before and after it |
| Text.TrimAllSpace | packages/opencode/src/config/markdown.ts:27 | a line trims to the empty string exactly when it is all whitespace |
| Text.Split | resources/opencode/packages/console/app/src/routes/changelog/index.tsx:44 | `split` on a non-empty separator always gives at least one piece |
| Text.Join | packages/opencode/src/config/markdown.ts:64 | `join`: the pieces with the separator between each two; `JoinSplit` ties it to `split` |
| Text.JoinSplit | packages/opencode/src/config/markdown.ts:22-64 | joining the pieces of a split with the same separator gives back the text |
| Text.StrLt | apps/svelte.dev/src/lib/server/content.ts:92 | ordinal `<` on strings: at most and not equal; `StrLeTotal`, `StrLeTransitive` and `StrLeAntisymmetric` make it a strict total order |
| Text.StrLeTotal | apps/svelte.dev/src/lib/server/content.ts:92 | any two strings are comparable |
| Text.StrLeTransitive | apps/svelte.dev/src/lib/server/content.ts:92 | the ordinal order is transitive |
| Text.ToLower | resources/svelte.dev/apps/svelte.dev/src/routes/packages/+page.server.ts:29 | lower-casing keeps the length and maps each character by itself |
| Text.IsSpace | packages/opencode/src/config/markdown.ts:27 | the characters `trim` removes: JavaScript white space and line terminators, the no-break, ideographic and other Unicode spaces included |
| Text.IsLineTerminator | resources/opencode/packages/console/app/src/routes/changelog/index.tsx:68 | the four line terminators, the characters the regular-expression `.` does not match |
| Text.IsWordChar | resources/opencode/packages/console/app/src/routes/changelog/index.tsx:68 | the class `\w`: ASCII letters, decimal digits and `_` |
| Text.TrimStart | packages/opencode/src/config/markdown.ts:27 | the result is no longer than the text and does not start with whitespace; `TrimStartSuffix` states that only leading whitespace is dropped |
| Text.TrimEnd | packages/opencode/src/config/markdown.ts:27 | the result is no longer than the text and does not end with whitespace; `TrimEndPrefix` states that only trailing whitespace is dropped |
| Text.StartsWith | resources/opencode/packages/console/app/src/routes/changelog/index.tsx:50 | `startsWith`: the prefix is no longer than the text and equals its first characters |
| Text.IndexOf | packages/opencode/src/config/markdown.ts:65 | the first position at which the pattern occurs, and none exactly when it occurs nowhere |
| Text.Contains | apps/svelte.dev/src/lib/packages-meta.ts:431 | `includes`: true exactly when the pattern occurs; `ContainsAt` states that any occurrence makes it true |
| Text.AfterFirst | resources/opencode/packages/console/core/script/update-models.ts:17-19 | `split(sep).slice(1).join(sep)`: empty when the separator does not occur, otherwise everything after its first occurrence |
| Text.ReplaceChar | resources/svelte.dev/apps/svelte.dev/src/routes/packages/+page.server.ts:29 | `replace(/ /g, '-')` for one character: the same length, every occurrence replaced and every other character kept |
| Text.NatToString | apps/svelte.dev/src/lib/server/content.ts:56 | `String(n)` of a whole number: a non-empty run of decimal digits with no leading zero; `NatToStringValue` states that it reads back as the number |
| Text.StrLe | apps/svelte.dev/src/lib/server/content.ts:92 | ordinal order on strings, code point by code point with a prefix first; `StrLeReflexive`, `StrLeTotal`, `StrLeTransitive` and `StrLeAntisymmetric` make it a total order |
| Sorting.Insert | packages/app/src/pages/layout.tsx:408 | inserting adds exactly one element to the multiset of the list |
| Sorting.SortBy | packages/app/src/pages/layout.tsx:408 | the sort returns a permutation of its input; `SortBySorted` states that it is sorted and `SortByStable` that it is stable |
| Sorting.InsertSorted | packages/app/src/pages/layout.tsx:408 | for a total preorder, inserting into a sorted list keeps it sorted |
| Sorting.SortBySorted | packages/app/src/pages/layout.tsx:408 | for a total preorder, the sort returns a sorted list |
| Sorting.Peers | packages/app/src/pages/layout.tsx:408 | the elements that compare equal to a given one, in their order |
| Sorting.InsertPeers | packages/app/src/pages/layout.tsx:408 | an inserted element goes in front of every element that compares equal to it |
| Sorting.SortByStable | packages/app/src/pages/layout.tsx:408 | stability: the elements that compare equal to any given one come out in their input order |
| Navigation.NatRem | packages/app/src/pages/layout.tsx:508 | the remainder of a non-negative index is below the length, is the index itself below the length and one length less between one and two lengths |
| Navigation.JsRem | packages/app/src/pages/layout.tsx:508-515 | the truncating remainder keeps the dividend's sign, its magnitude stays below the divisor, and it equals the dividend or dividend minus divisor in the first two periods |
| Navigation.FindSession | packages/app/src/pages/layout.tsx:488 | the lookup returns the first index holding the id, or nothing exactly when no session has it |
| Navigation.Navigate | packages/app/src/pages/layout.tsx:498-525 | an empty list does nothing; the target is always a valid index; an absent or unknown current session goes to the first session for a positive offset and the last otherwise; offsets of one and minus one step to the next and previous session with wrap-around; the neighbours are requested next-high then previous-low going forward, previous-high then next-low going back, and not at all for offset zero |
| Navigation.NavigateRoundTrip | packages/app/src/pages/layout.tsx:498-515 | with distinct non-empty ids, moving forward one session and then back one returns to the starting session |
| Navigation.FindDistinct | packages/app/src/pages/layout.tsx:488 | with distinct ids, looking up a session's own id gives its own index |
| Navigation.NeighbourPrefetch | packages/app/src/pages/layout.tsx:475-496 | without a current session the first two sessions are requested; an unknown current requests nothing; otherwise the next session then the previous session, each only when it exists, never wrapping |
| Navigation.IndexOfId | packages/app/src/pages/layout.tsx:111 | indexOf returns the first position holding the id, or minus one exactly when the id is absent |
| Navigation.Cycle | packages/app/src/pages/layout.tsx:108-133 | an empty list changes nothing; an unknown current value chooses the first entry; a known one moves one step in the given direction with wrap-around |
| Navigation.CycleTheme | packages/app/src/pages/layout.tsx:108-120 | a chosen theme is always one of the available themes, and with at least one theme a step of one either way always chooses one |
| Navigation.CycleColorScheme | packages/app/src/pages/layout.tsx:101-133 | the colour scheme always changes to one of system, light and dark; forward goes system to light to dark and back to system, with any unknown value going to system |
| Navigation.CycleRoundTrip | packages/app/src/pages/layout.tsx:108-133 | with distinct ids, cycling forward one and then back one returns to the starting entry |
| Navigation.IndexOfDistinct | packages/app/src/pages/layout.tsx:111 | with distinct ids, indexOf of an entry gives its own position |
| Navigation.Succ | packages/app/src/pages/layout.tsx:514 | the next index round the list, always a valid index; `SuccPred` ties it to `(i + 1) % n` |
| Navigation.Pred | packages/app/src/pages/layout.tsx:515 | the previous index round the list, always a valid index; `SuccPred` ties it to `(i - 1 + n) % n` |
| Navigation.SuccPred | packages/app/src/pages/layout.tsx:514-515 | the two neighbour indices are the truncating remainders `(i + 1) % n` and `(i - 1 + n) % n`, and each step undoes the other |
| Navigation.CycleIndex | packages/app/src/pages/layout.tsx:112 | an unknown current index goes to the start; a known one moves forward to its successor or back to its predecessor round the list |
| Prefetch.Grown | packages/app/src/pages/layout.tsx:462-463 | a high-priority id goes in front of the waiting ids and a low-priority id behind them, the others kept in order |
| Prefetch.TrimPending | packages/app/src/pages/layout.tsx:466-470 | the trim loop keeps the longest prefix of at most six waiting ids and removes exactly the dropped non-empty ids from the membership set |
| Prefetch.Admit | packages/app/src/pages/layout.tsx:462-470 | admitting leaves in-flight ids and the counter alone and grows the waiting list by one up to six; a high-priority id is first, ahead of the earlier ids minus the last one dropped; a low-priority id is appended when there is room and discarded when six are already waiting |
| Prefetch.AdmitValid | packages/app/src/pages/layout.tsx:458-470 | admitting an id neither in flight nor waiting preserves the queue invariant: at most one running fetch matching the in-flight set, at most six distinct waiting ids mirrored by the membership set, and nothing both in flight and waiting. The membership set may keep the empty id after the trim drops it, because the loop's `if (!dropped) continue` skips the delete for a falsy id, so only non-empty members are required to be waiting. |
| Prefetch.AdmitDistinct | packages/app/src/pages/layout.tsx:462-470 | admitting a new id leaves the waiting ids free of duplicates |
| Prefetch.AdmitListed | packages/app/src/pages/layout.tsx:464-470 | after admitting, every non-empty id in the membership set is still waiting. The membership set may keep the empty id after the trim drops it, because the loop's `if (!dropped) continue` skips the delete for a falsy id, so only non-empty members are required to be waiting. |
| Prefetch.AdmitKeeps | packages/app/src/pages/layout.tsx:464-470 | after admitting, every waiting id is in the membership set |
| Prefetch.PumpQueue | packages/app/src/pages/layout.tsx:431-442 | pumping does nothing while a fetch runs or nothing waits; otherwise it starts the front id, moving it from waiting to in flight and counting it as running, and it keeps the queue invariant |
| Prefetch.RequestQueue | packages/app/src/pages/layout.tsx:458-472 | an id already in flight or waiting changes nothing; any request leaves a valid queue with at most one running fetch and at most six waiting ids |
| Prefetch.SettleQueue | packages/app/src/pages/layout.tsx:444-446 | a finished fetch frees the slot and leaves the in-flight set, leaving the waiting ids as they were and the queue valid |
| Prefetch.ClearPending | packages/app/src/pages/layout.tsx:376-379 | the token bump forgets every waiting id and keeps the in-flight ones, preserving the queue invariant |
| Prefetch.IdOrders | packages/app/src/pages/layout.tsx:408-421 | ordering messages and parts by id is a total preorder |
| Prefetch.SortedMessages | packages/app/src/pages/layout.tsx:403-408 | the stored messages are exactly the fetched messages that have an id, as a permutation, in ascending id order |
| Prefetch.Infos | packages/app/src/pages/layout.tsx:403-406 | the message infos kept are exactly those of fetched messages with a non-empty id |
| Prefetch.SortedParts | packages/app/src/pages/layout.tsx:418-421 | a message's stored parts are exactly its parts with an id, as a permutation, in ascending id order |
| Prefetch.WithIds | packages/app/src/pages/layout.tsx:419 | the parts kept are exactly those with a non-empty id |
| Prefetch.Items | packages/app/src/pages/layout.tsx:403 | the items kept are exactly the fetched messages with a non-empty id |
| Prefetch.LastWithId | packages/app/src/pages/layout.tsx:413-425 | the item whose parts end up stored under a message id is one carrying that id, and there is none exactly when no item carries it |
| Prefetch.MergeParts | packages/app/src/pages/layout.tsx:413-425 | the part-store loop stores, for every fetched message id, the sorted parts of the last item with that id, keeps every other entry unchanged and adds nothing else |
| Prefetch.Scheduler.constructor | packages/app/src/pages/layout.tsx:365-369 | the scheduler starts with no queues, token zero and an empty store |
| Prefetch.Scheduler.QueueFor | packages/app/src/pages/layout.tsx:382-394 | the directory's queue is returned, created empty on first use; nothing else changes |
| Prefetch.Scheduler.Pump | packages/app/src/pages/layout.tsx:431-449 | the directory's queue is pumped and a fetch of 200 messages is issued for the started id with the current token |
| Prefetch.Scheduler.Request | packages/app/src/pages/layout.tsx:451-473 | `loaded` is the store's `message[id] !== undefined`, so it holds for every session whose messages the scheduler has stored; a session without a directory or with loaded messages changes nothing; otherwise the directory's queue becomes the request's result and the started fetch is returned, every queue staying valid |
| Prefetch.Scheduler.RequestAt | packages/app/src/pages/layout.tsx:458-473 | a request on an existing queue has the effect of the request function on it |
| Prefetch.Scheduler.AdmitAndPump | packages/app/src/pages/layout.tsx:462-472 | admitting a new id and pumping has the effect of the request function on the queue |
| Prefetch.Scheduler.AdmitAt | packages/app/src/pages/layout.tsx:462-470 | the queue becomes the admitted queue and every queue stays valid |
| Prefetch.Scheduler.InvalidateAll | packages/app/src/pages/layout.tsx:371-380 | the token goes up by one and every queue loses its waiting ids, the store unchanged |
| Prefetch.Scheduler.Settle | packages/app/src/pages/layout.tsx:396-449 | a stale or failed fetch changes no stored data; a current successful one stores the sorted messages and each message's sorted parts, keeping unrelated parts; either way the slot is freed and the queue pumped again |
| Prefetch.Scheduler.ReleaseAndPump | packages/app/src/pages/layout.tsx:444-448 | the slot is freed and the directory's queue pumped |
| Prefetch.Scheduler.Store | packages/app/src/pages/layout.tsx:410-426 | the session's messages become the sorted messages and each fetched message's parts its sorted parts, other entries kept |
| Prefetch.Scheduler.Release | packages/app/src/pages/layout.tsx:445-446 | the settled fetch's queue is freed, all queues staying valid |
| Prefetch.DroppedIds | packages/app/src/pages/layout.tsx:466-470 | the ids the trim loop removes from the membership set: the non-empty dropped ids, since an empty one is skipped by `if (!dropped) continue` |
| WorkspaceOrder.Candidates | packages/app/src/pages/layout.tsx:791 | the candidates start with the worktree |
| WorkspaceOrder.Filter | packages/app/src/pages/layout.tsx:795-796 | the filter keeps exactly the entries whose membership in the other list matches the mode, and never more entries than given |
| WorkspaceOrder.Merge | packages/app/src/pages/layout.tsx:795-797 | the merged order contains exactly the candidates |
| WorkspaceOrder.WorkspaceIds | packages/app/src/pages/layout.tsx:789-798 | no project gives no workspaces; otherwise the ids are exactly the candidates, in discovery order when nothing is persisted |
| WorkspaceOrder.FilterOrder | packages/app/src/pages/layout.tsx:795-796 | any two entries the filter keeps occur in the same order in its input |
| WorkspaceOrder.FilterAppend | packages/app/src/pages/layout.tsx:795-796 | filtering works entry by entry: filtering two lists joined is filtering each |
| WorkspaceOrder.MergeOrder | packages/app/src/pages/layout.tsx:795-797 | every persisted entry still among the candidates comes before every new candidate; the persisted ones keep their persisted order and the new ones their discovery order |
| WorkspaceOrder.WorkspaceIdsOrder | packages/app/src/pages/layout.tsx:789-798 | with a persisted order, the surviving persisted workspaces come first in persisted order, then the newly found ones in discovery order |
| WorkspaceOrder.FilterDistinct | packages/app/src/pages/layout.tsx:795-796 | filtering a list without duplicates gives one without duplicates |
| WorkspaceOrder.MergeDistinct | packages/app/src/pages/layout.tsx:795-797 | merging a duplicate-free persisted list with distinct candidates gives no duplicates |
| WorkspaceOrder.WorkspaceIdsPermutation | packages/app/src/pages/layout.tsx:789-798 | with distinct candidates and a duplicate-free persisted list, the workspace order is a duplicate-free permutation of the candidates |
| WorkspaceOrder.Reconcile | packages/app/src/pages/layout.tsx:298-323 | the effect writes nothing until both ready flags hold and a project is current; it always writes when nothing is persisted; whatever it writes is the workspace order; it writes nothing only when the persisted list already equals it |
| WorkspaceOrder.ReconcileSettles | packages/app/src/pages/layout.tsx:298-323 | once the effect has written its list, running it again writes nothing |
| WorkspaceOrder.MergeStable | packages/app/src/pages/layout.tsx:311-313 | merging a persisted list holding exactly the candidates returns it unchanged |
| WorkspaceOrder.FilterAll | packages/app/src/pages/layout.tsx:311 | keeping the entries found in a list that contains all of them keeps the whole list |
| WorkspaceOrder.FilterNone | packages/app/src/pages/layout.tsx:312 | dropping the entries found in a list that contains all of them leaves nothing |
| WorkspaceOrder.IndexOf | packages/app/src/pages/layout.tsx:814-815 | findIndex returns the first position holding the id, or nothing exactly when it is absent |
| WorkspaceOrder.MoveItem | packages/app/src/pages/layout.tsx:819-822 | the two splices put the dragged item at the target index and keep the other items in their order |
| WorkspaceOrder.MoveItemPermutation | packages/app/src/pages/layout.tsx:819-822 | moving an item is a permutation |
| WorkspaceOrder.MoveItemInverse | packages/app/src/pages/layout.tsx:819-822 | moving an item back to where it came from restores the list |
| WorkspaceOrder.DragOver | packages/app/src/pages/layout.tsx:806-824 | a drag without both ids or without a project writes nothing; a write is the workspace order with the dragged item moved to the target's index, a permutation of it; a write happens whenever both ids are found at different positions and the dragged id is non-empty |
| WorkspaceOrder.DragOverExample | packages/app/src/pages/layout.tsx:806-824 | dragging the worktree onto the last of two sandboxes moves it to the end |
| WorkspaceOrder.WorkspaceState.constructor | packages/app/src/pages/layout.tsx:298-323 | the state starts with no persisted orders and no dragged workspace |
| WorkspaceOrder.WorkspaceState.ReconcileOrder | packages/app/src/pages/layout.tsx:298-323 | the stored order for the project becomes what the effect writes, when it writes |
| WorkspaceOrder.WorkspaceState.DragStart | packages/app/src/pages/layout.tsx:800-804 | an event with an id records it as the dragged workspace; one without changes nothing |
| WorkspaceOrder.WorkspaceState.Drag | packages/app/src/pages/layout.tsx:806-824 | the stored order becomes what the drag-over writes, when it writes |
| WorkspaceOrder.WorkspaceState.DragEnd | packages/app/src/pages/layout.tsx:826-828 | the dragged workspace is cleared and the orders kept |

## Left out

- **Solid reactivity**: `createEffect`, `createMemo`, stores, `batch` and router navigation are not modelled. Each effect is a function or method run once on its inputs, and each store write is a returned value or a field update.
- **Network and asynchrony**: the SDK fetch with `retry`, the copilot device-flow `fetch` and `sleep`, and session loading are not modelled. A fetch's outcome, and the token endpoint's successive responses, are parameters.
- **Concurrency**: fetches settling in parallel is not modelled. Each settlement is a separate `Settle` call, in any order the caller chooses. `MarkdownCache.Cache.Render` runs as one step, although `await marked.parse` (markdown.tsx:77-79) lets another render touch the cache between the lookup and the store.
- **Clocks**: `Date.now()`, `new Date()` and today's date are integer or string parameters.
- **String comparison**: `localeCompare` is taken as ordinal (code-point) string order.
- **Lowercasing**: `toLowerCase` is modelled on the ASCII letters only; other letters are kept as they are.
- **Floating point**:
  - `parseFloat` and `parseInt` are modelled exactly as decimals, and only as far as the version classifier compares them with whole majors.
  - `format_number` works over integers with exact rational rounding.
  - `time.ts`, which needs fractional divisions and `Intl`, is not part of this model.
- **Blog sort**: the comparator never returns zero. The order is stated for distinct dates only, and posts with equal dates are left in whatever order the sort gives them.
- **Content module**:
  - DOMPurify, `marked`, `create_index` and the glob imports are not part of this model.
  - The content tree and the registry data are parameters.
- **Regular expressions and gray-matter**: the `FILE_REGEX`/`SHELL_REGEX` extractors and the gray-matter parse of the config loader are not part of this model.
- **Models scripts**:
  - JSON parsing and schema validation are parameters.
  - Shell writes such as `bun sst secret set` become a list of recorded writes.
- **Copilot provider**: the model list is a parameter.
- **Rate limits**: the cents-to-micro-cents conversion is a parameter, and so are the configured limits and the week bounds.
- Black.UsagePercent: computes the exact ceiling of `usage * 100 / limit`. The source computes `(usage / limit) * 100` in doubles first, so where that product rounds up past a whole number the source answers one more. For example, a usage of 7 against a limit of 100 gives 7.000000000000001 and so 8 % in the source, but 7 % here.
- Black.AnalyzeRollingUsage: its `usagePercent` has the exact-ceiling difference described for `Black.UsagePercent`.
- Black.AnalyzeWeeklyUsage: its `usagePercent` has the exact-ceiling difference described for `Black.UsagePercent`.
- **String length units**: JavaScript's `length`, `slice` and `<` count and compare UTF-16 code units, while a Dafny `string` is a sequence of characters. The two only agree for text without characters outside the Basic Multilingual Plane. This affects:
  - `Text.Trim`, `Text.Split`, `Text.StrLt` and `Text.StrLe`;
  - `ZenModels.Chunk` and `ZenModels.Slice`, whose `Math.ceil(len / 8)` counts code units in the source;
  - `Content.PostDate`, which takes the first ten characters of the file name;
  - `SessionOrder.OrdinalCompare` on session ids, and the blog's date comparison.
- **Markdown cache**: sanitising and rendering are a parameter (the rendered html), and so is the checksum.
- MarkdownCache.Cache.Touch: requires a non-empty key. Every caller guards on `key && hash`, so the source's `if (!first) return` can only skip eviction when the oldest key is empty, and that is never the case.
- **Other files**: the following are not part of this model:
  - the sync-packages script and the desktop prepare script;
  - the env wrapper, the console config constants and the logos glob;
  - the `llms.txt` and `sections.json` response builders;
  - the title bar and session header components;
  - the OAuth callback and LLM tests, whose implementations are not shown.

## Findings

| source | as written | input that shows it | evidently intended | confidence | as-written member | corrected member |
|---|---|---|---|---|---|---|
| apps/svelte.dev/src/routes/packages/utils.ts:7-41 | the quotient below 10 is rounded with `Math.round` to one decimal | 4370 gives `4.4K`, while the function's own documentation example gives `4.3K` (and 43700 gives `44K` against `43K`) | the documented examples truncate to one decimal | low, not executed | NumberFormat.RoundedExamples | NumberFormat.TruncatedThousands |
