# Drops SDK core in Dafny

This project models the three pieces of logic in the Drops SDK (`sdk/src`), the
library that builds, submits and interprets Sui transactions for location-bound
NFT collections and drops:

- **Object-change resolver** (`object_changes.dfy`, module `ObjectChanges`):
  `parseCreatedObjectsIds` walks a transaction's `objectChanges` once. It
  collects the `objectId` of every entry tagged `"created"`, in input order.
  The entries are a tagged variant `ObjectChange` with the six Sui change kinds.
  The loop is a method over a sequence with an accumulator, proved equal to the
  recursive filter `CreatedIds`. Lemmas prove what that filter promises.
- **Environment validator** (`environment.dfy`, module `Environment`): the zod
  schema of `sdk/src/env.ts` (five required string keys) and `safeParse` over the
  process environment. Success yields `ENV`, which holds exactly the schema's
  keys, because zod drops unknown keys. Failure yields one `"Required"` issue
  per missing key. Module load (`LoadEnv`) either exports `ENV` or exits with
  code 1 and the formatted report.
- **Collection-creation builder** (`collection_tx.dfy`, module `CollectionTx`):
  `createCollection` maps its parameter record onto one Move call
  `<package>::collection::create` with nine width-tagged arguments. It adds the
  call to a fresh `Transaction` (a class whose `commands` sequence `moveCall`
  appends to). It hands the transaction to the client with the user key and the
  options `showEffects` and `showObjectChanges`. A decoder for the argument list
  and a parser for the target string are the partners of the builder's output.
  Round trips in both directions are proved. Numeric width limits (u16, u32,
  u64) are stated as predicates: the Sui encoders enforce them, not this code.

`results.dfy` holds the `Option` and `Result` datatypes.

Behaviour one might expect of this SDK that the code does not have; the model
follows the code:

- The doc comment of `parseCreatedObjectsIds` says it filters "by objectType".
  The function takes no type and filters only on the `"created"` tag.
  `CreatedIdsIgnoreObjectType` proves the declared type plays no part.
- Created entries without an `objectId` are not skipped: the code pushes
  `change.objectId` for every created entry. In the model every `Created` entry
  carries an id.
- `createCollection` does no range check of its numbers and raises no
  validation error of its own. The model states widths as predicates
  (`ParamsFitWidths`) and proves when the built arguments satisfy them.
- The schema validates five keys only. The RPC URL, the registry ids and the
  signing secret are not validated. See Findings.
- `COLLECTION_MODULE_NAME` is validated, but the target's module name is the
  literal `collection`.

## Model

| member | source | states |
|---|---|---|
| `ObjectChanges.ParseCreatedObjectsIds` | sdk/src/helpers/parseCreatedObjectIds.ts:15-23 | the single left-to-right pass with a pushed accumulator returns exactly `CreatedIds` of its input; the input is a value and only read |
| `ObjectChanges.CreatedIds` | sdk/src/helpers/parseCreatedObjectIds.ts:16-21 | the result is never longer than the change list |
| `ObjectChanges.ObjectChange.TypeTag` | sdk/src/helpers/parseCreatedObjectIds.ts:18 | an entry's `type` tag is `"created"` if and only if it is the `Created` variant, so the source's tag test selects exactly created entries |
| `ObjectChanges.CreatedIdsAppend` | sdk/src/helpers/parseCreatedObjectIds.ts:17-21 | the result of a concatenation is the concatenation of the results: each entry is visited once, in order |
| `ObjectChanges.CreatedIdsMembership` | sdk/src/helpers/parseCreatedObjectIds.ts:18-19 | an id is in the result if and only if some created entry carries it, whatever its object type |
| `ObjectChanges.CreatedIdsEmptyIff` | sdk/src/helpers/parseCreatedObjectIds.ts:16-22 | the result is empty if and only if no entry is created; an empty list gives an empty result, not an error |
| `ObjectChanges.CreatedIdsCount` | sdk/src/helpers/parseCreatedObjectIds.ts:18-20 | the result's length is the number of entries whose `type` tag is `"created"`; other kinds contribute nothing |
| `ObjectChanges.CreatedIdsFullIff` | sdk/src/helpers/parseCreatedObjectIds.ts:18-20 | the result is as long as the input if and only if every entry is created |
| `ObjectChanges.CreatedIdsIgnoreObjectType` | sdk/src/helpers/parseCreatedObjectIds.ts:12-18 | replacing every entry's declared object type leaves the result unchanged: there is no type filter, despite the doc comment |
| `ObjectChanges.SingleCreatedEntry` | sdk/src/tests/e2e.test.ts:36-40 | one created entry among any non-created entries yields exactly that entry's id |
| `Environment.MissingKeys` | sdk/src/env.ts:6-12 | a key is reported missing if and only if the schema declares it and the environment lacks it; a schema without repeated keys yields no repeated missing key |
| `Environment.EnvSchemaDistinct` | sdk/src/env.ts:6-12 | the five schema keys are pairwise different, so each missing one gets exactly one issue |
| `Environment.SafeParse` | sdk/src/env.ts:6-15 | success if and only if every schema key is present; on success `ENV` has exactly the schema keys with the environment's values; on failure at least one issue, the `i`-th naming the `i`-th missing key in schema order, each a `Required` string issue, and for a schema without repeated keys no two issues name the same key |
| `Environment.FormatIssues` | sdk/src/env.ts:18-21 | the formatted report has an entry, with at least one message, for exactly the keys the issues name; every message listed under a key is the message of an issue for that key, and every issue's message is listed under its key |
| `Environment.MessagesForMembership` | sdk/src/env.ts:18-21 | a message is grouped under a key if and only if some issue for that key carries it |
| `Environment.MessagesForCount` | sdk/src/env.ts:18-21 | a key's group holds exactly as many messages as there are issues for that key |
| `Environment.FormatIssuesCount` | sdk/src/env.ts:18-21 | each key's report entry lists one message per issue for that key |
| `Environment.SingleRequiredMessages` | sdk/src/env.ts:18-21 | when no two issues name the same key and each says `Required`, every report entry is exactly `["Required"]` |
| `Environment.FailureReport` | sdk/src/env.ts:15-21 | on a failed parse the report's keys are exactly the missing keys, every message is `Required`, and for a schema without repeated keys each entry is exactly `["Required"]` |
| `Environment.LoadEnv` | sdk/src/env.ts:15-25 | loading exits if and only if a key is missing, then with code 1 and a report naming every missing key and no other, each with only the message `Required` (for a schema without repeated keys, exactly `["Required"]`); otherwise `ENV` maps each schema key to its environment value |
| `Environment.EnvSchemaRequiredKeys` | sdk/src/env.ts:6-12 | validation succeeds if and only if the five keys `SUI_NETWORK`, `DROPS_PACKAGE_ID`, `DROPS_PACKAGE_NAME`, `COLLECTION_MODULE_NAME`, `DROP_MODULE_NAME` are present, and `ENV` holds exactly those |
| `Environment.MissingPackageIdReported` | sdk/src/env.ts:8-22 | an environment without `DROPS_PACKAGE_ID` makes loading exit, with that key in the report |
| `Environment.SafeParseIgnoresOtherKeys` | sdk/src/env.ts:6-15 | two environments that agree on the schema keys give the same result: other variables neither cause failure nor reach `ENV`, and validation is deterministic |
| `CollectionTx.Transaction.constructor` | sdk/src/helpers/createCollection.ts:24 | a new transaction has no commands |
| `CollectionTx.Transaction.AddMoveCall` | sdk/src/helpers/createCollection.ts:27-41 | `moveCall` appends exactly one command and changes nothing else |
| `CollectionTx.OrZero` | sdk/src/helpers/createCollection.ts:33-34 | an omitted coordinate gives 0; a supplied one is passed through unchanged |
| `CollectionTx.CreateCollectionArgs` | sdk/src/helpers/createCollection.ts:29-39 | the argument list decodes to the registry id, name, description, defaulted coordinates, flags, max supply and mint window, in that order |
| `CollectionTx.CollectionCreateCall` | sdk/src/helpers/createCollection.ts:27-41 | the call has no type arguments and a well-formed `collection::create` argument list whose first entry references the registry |
| `CollectionTx.CreateCollection` | sdk/src/helpers/createCollection.ts:11-51 | a fresh transaction holding exactly the one create call; the request signs with `USER_PRIVATE_KEY` and asks for both effects and object changes |
| `CollectionTx.TargetString` | sdk/src/helpers/createCollection.ts:28 | a target rendered as `<package>::<module>::<function>` from colon-free names parses back to the same names |
| `CollectionTx.ParsedTargetRenders` | sdk/src/helpers/createCollection.ts:28 | any string that parses as a target is exactly that target rendered |
| `CollectionTx.CreateCallTarget` | sdk/src/helpers/createCollection.ts:28 | the call's target names the configured package, module `collection` and function `create` |
| `CollectionTx.EncodeCreateArgs` | sdk/src/helpers/createCollection.ts:29-39 | the nine-entry argument list decodes back to every value encoded |
| `CollectionTx.EncodeDecodeCreateArgs` | sdk/src/helpers/createCollection.ts:29-39 | only nine-entry lists tagged object, string, string, u32, u32, u16, u64, u64, u64 decode, and each is the encoding of its decoding |
| `CollectionTx.AttributesIgnored` | sdk/src/helpers/createCollection.ts:15-39 | parameter records that differ only in `attributes` give identical calls |
| `CollectionTx.CreateArgsWidthsIff` | sdk/src/helpers/createCollection.ts:33-38 | every built argument fits its u16/u32/u64 width if and only if the defaulted coordinates, flags, max supply and mint times do |
| `CollectionTx.SchemaDropsCreateCollectionKeys` | sdk/src/helpers/createCollection.ts:28-46 | as written, a parsed `ENV` never holds `COLLECTIONS_REGISTRY_ID` or `USER_PRIVATE_KEY` |
| `CollectionTx.SchemaDropsRegistryIdExample` | sdk/src/env.ts:6-25 | an environment that sets all seven variables still parses to an `ENV` without `COLLECTIONS_REGISTRY_ID` |
| `CollectionTx.CorrectedEnvSchemaDistinct` | sdk/src/env.ts:6-12 | the seven-key corrected schema declares no key twice |
| `CollectionTx.CorrectedSchemaServesCreateCollection` | sdk/src/helpers/createCollection.ts:28-46 | with the two keys added to the schema, every parsed `ENV` meets `CreateCollection`'s precondition and carries the environment's values |

## Left out

- `signAndExecuteTransaction`, `getSigner`, `getAddress` and `waitForTransaction` are network and cryptographic calls into the Sui client. `CreateCollection` returns the request it would pass (transaction, secret key, options); signing, submission, finality and timeouts are not modelled.
- The BCS encoders behind `tx.object` and `tx.pure.*`, including their range checks and what `tx.object(undefined)` does, are library code. Widths are predicates over the built arguments.
- JavaScript numbers are modelled as unbounded integers. `NaN`, fractions and precision loss above 2^53 are not modelled, so `OrZero` covers only integer inputs.
- `ObjectChange` keeps the `type` tag and `objectId`, which the resolver reads, and `objectType`, which `CreatedIdsIgnoreObjectType` needs. It also keeps a few identifying fields per kind (`packageId`, `modules`, `recipient`). `version`, `digest`, `sender`, `owner` and `previousVersion` are left out.
- `dotenv.config()`, `console.error`, `JSON.stringify` layout and `process.exit` are I/O. `LoadEnv` returns the exit code and the report as a value instead. The report's root `_errors` list is always empty for this schema and is left out.
- `RequiredIssue` and `LoadEnv`'s `"Required"` messages assume zod 3's defaults (message `Required`, fields `expected: "string"`, `received: "undefined"`). Zod 4 reports `Invalid input: expected string, received undefined` and has no `received` field. The zod major version is not pinned in the modelled files.
- zod's non-string checks: process environment values are always strings, so only a missing key can fail.
- Module caching (the environment is parsed once per process) is not modelled; validation is a function, so re-running it gives the same result.
- `sdk/src/helpers/mintDrop.ts` is a stub with an empty argument list and a constant target; it is not part of this model.
- `sdk/src/client.ts` (`createDrop` only throws) and `sdk/src/types/index.ts` (interface shapes only) are not part of this model.
- Everything under `app/` is React presentation and is not part of this model.

## Findings

| source | as written | input that shows it | evidently intended | confidence | as-written member | corrected member |
|---|---|---|---|---|---|---|
| sdk/src/helpers/createCollection.ts:30 | `createCollection` reads `ENV.COLLECTIONS_REGISTRY_ID` and `ENV.USER_PRIVATE_KEY`, but the schema in `sdk/src/env.ts:6-12` declares neither and zod's default object parsing drops undeclared keys, so when the code is transpiled without type checking both read `undefined`; under `tsc` the two reads are type errors, since `ENV`'s type is inferred from the five-key schema (`sdk/src/env.ts:15-25`) | an environment setting all seven variables (`SchemaDropsRegistryIdExample`) | the schema declares both keys, so `ENV` carries them | high; not executed | `CollectionTx.SchemaDropsCreateCollectionKeys` | `CollectionTx.CorrectedSchemaServesCreateCollection` |
