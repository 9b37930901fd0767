# Notification feed of the wallet app, in Dafny

This project models the notification feed that the `useNotifications` hook of
the wallet app computes (`app/src/hooks/notifications.ts`). The hook has two
parts, and both are modelled as plain functions and methods outside React:

- **The proof filter stage.** Every proof in `proofsRequested ++ proofsDone`
  is paired with the attestation classifier's verdict. The proofs that are
  not attestation requests become `nonAttestationProofs`.
- **The aggregation step.** It builds the feed from four inputs:
  - the unseen basic messages, cut down to the first one per connection;
  - every credential offer;
  - the non-attestation proofs that are still worth showing;
  - the Done credentials whose revocation is not yet acknowledged.

  These are concatenated in that order. The result is then stable-sorted by
  descending `createdAt`, as `Array.prototype.sort` does (ECMA-262, 2023
  edition, section 23.1.3.30, which requires stability).

Files:

- `records.dfy` (module `Records`): the records the hook reads. Each is a
  datatype with an integer `createdAt`. Each metadata flag is an
  `Option<bool>`; `None` means the metadata, the key, `undefined` or `null`
  is missing.
- `sequences.dfy` (module `Sequences`): `Array.prototype.filter` on
  sequences, and the order-preserving subsequence relation.
- `feed_order.dfy` (module `FeedOrder`): the stable newest-first sort, with
  its sortedness, permutation, stability and uniqueness proofs.
- `aggregation.dfy` (module `Aggregation`): the recomputation body. It holds
  the per-connection `forEach` loop as a method, the filters, the merge and
  the membership theorems about the feed.
- `proof_filter.dfy` (module `ProofFilter`): the classify/filter/map stage
  and `Promise.all`'s join of the verdicts.
- `hook.dfy` (module `Hook`): a class with the hook's two state fields
  (`notifications`, `nonAttestationProofs`). Its two methods replace those
  fields wholesale, one per effect. The module also holds the end-to-end
  lemmas from the subscriptions to the feed.

Where the written design and the code disagree, the model follows the code:

- The design calls the kept message per conversation "the most recent
  unseen one". The code keeps the FIRST unseen message per `connectionId`
  in the order the messages arrive, whatever its timestamp.
  `FirstEncounteredWins` pins this.
- The design says messages whose metadata "lacks a seen flag" are kept. The
  code keeps every message whose `seen` is falsy or absent, so `seen: false`
  counts as unseen.
- The design leaves a failing classifier call undefined. In the code,
  `Promise.all` rejects, so `setNonAttestationProofs` never runs for that
  cycle and the previous set stays. `ReclassifyProofs` models exactly that.

## Model

| member | source | states |
|---|---|---|
| `Sequences.FilterCounts` | app/src/hooks/notifications.ts:82 | every occurrence of an accepted element survives a filter, and no other element does (duplicates are kept) |
| `FeedOrder.SortNewestFirst` | app/src/hooks/notifications.ts:65-67 | the sorted feed is a permutation of its input and has non-increasing `createdAt` |
| `FeedOrder.SortIsStable` | app/src/hooks/notifications.ts:65-67 | for every timestamp, the items created at that time appear in the same relative order before and after the sort |
| `FeedOrder.StableOrderIsUnique` | app/src/hooks/notifications.ts:65-67 | two newest-first sequences with the same items per timestamp, in the same order, are equal |
| `FeedOrder.SortIsTheStableOrder` | app/src/hooks/notifications.ts:65-67 | any newest-first arrangement that keeps ties in input order equals the sort's result, so the sort is fully determined by its input |
| `Aggregation.UnseenMessages` | app/src/hooks/notifications.ts:36-39 | `unseenMessages` holds exactly the messages whose `seen` flag is not true, as an order-preserving subsequence of the input |
| `Aggregation.FirstPerConnection` | app/src/hooks/notifications.ts:42-49 | `messagesToShow` is an order-preserving subsequence of the unseen messages whose connections are pairwise distinct and cover every connection among them |
| `Aggregation.MessagesToShow` | app/src/hooks/notifications.ts:42-49 | the `forEach` loop over the unseen messages leaves `messagesToShow` equal to the first message per connection, in input order |
| `Aggregation.OnePerConnectionIsSubsequence` | app/src/hooks/notifications.ts:42-49 | the messages the loop pushes form an order-preserving subsequence of its input |
| `Aggregation.OnePerConnectionIds` | app/src/hooks/notifications.ts:42-49 | the pushed messages have pairwise distinct connections, and they cover exactly the input's connections that were not already recorded |
| `Aggregation.FirstPerConnectionOnePerContact` | app/src/hooks/notifications.ts:42-49 | `messagesToShow` is a subsequence of the unseen messages with exactly one message per distinct `connectionId`, so it has as many messages as there are distinct connections |
| `Aggregation.OnePerConnectionOfUnseen` | app/src/hooks/notifications.ts:36-49 | after the unseen filter and the loop, a message is kept iff it is unseen, its connection was not recorded already, and no earlier unseen message shares its connection |
| `Aggregation.MessageInFeed` | app/src/hooks/notifications.ts:36-49 | a message is in the feed iff it is unseen (`seen` absent or false) and no earlier unseen message comes from the same connection |
| `Aggregation.PendingRevocations` | app/src/hooks/notifications.ts:51-57 | `revoked` holds exactly the Done credentials with a revocation notification and a null or undefined `revoked_seen`, in input order |
| `Aggregation.ShownProofs` | app/src/hooks/notifications.ts:58-64 | `proofs` holds exactly the non-attestation proofs that are not terminal, or terminal with a defined `isVerified` and `details_seen` not true, in input order |
| `Aggregation.Merged` | app/src/hooks/notifications.ts:65 | the spread `[...messagesToShow, ...offers, ...proofs, ...revoked]` has the four lists' total length and holds each of their items, tagged with its kind, and nothing else |
| `Aggregation.CredentialInFeed` | app/src/hooks/notifications.ts:51-57 | a credential is in the feed iff it is an offer (unfiltered), or a Done credential with a revocation notification whose `revoked_seen` is null or undefined |
| `Aggregation.ProofInFeed` | app/src/hooks/notifications.ts:58-64 | a non-attestation proof is in the feed iff its state is neither Done nor PresentationReceived, or it has a defined `isVerified` and `details_seen` is not true |
| `Aggregation.Feed` | app/src/hooks/notifications.ts:65-67 | the feed is a permutation of `messagesToShow ++ offers ++ proofs ++ revoked` (nothing added, dropped or duplicated) and has non-increasing `createdAt` |
| `Aggregation.InFeedIffMerged` | app/src/hooks/notifications.ts:65-67 | an item is in the sorted feed iff it is in the concatenation |
| `Aggregation.FeedKeepsTies` | app/src/hooks/notifications.ts:65-67 | items of the feed with equal `createdAt` keep their order from the concatenation, so the category order breaks ties |
| `Aggregation.FirstEncounteredWins` | app/src/hooks/notifications.ts:42-49 | of two unseen messages from one connection, the feed holds only the first, even when the second is newer |
| `Aggregation.RevocationAcknowledged` | app/src/hooks/notifications.ts:51-57 | a Done credential with a revocation notification is shown while `revoked_seen` is undefined, and hidden once it is set to any value, `false` included |
| `ProofFilter.NonAttestationPositions` | app/src/hooks/notifications.ts:79-82 | the positions whose verdict is "not an attestation" (`include` true), each exactly once, in increasing order |
| `ProofFilter.SelectsNonAttestationPositions` | app/src/hooks/notifications.ts:75-82 | the `map` to `{value, include}`, `filter` on `include` and `map` back yield the proof at each such position, in order |
| `ProofFilter.FilterProofs` | app/src/hooks/notifications.ts:74-82 | `nonAttestationProofs` is exactly the proofs of `proofsRequested ++ proofsDone` at the positions classified "not an attestation", in order, one entry per such position, so duplicates are kept |
| `ProofFilter.MixedVerdictsKeepPositions` | app/src/hooks/notifications.ts:74-82 | with a repeated proof and mixed verdicts (`[q, p] ++ [q]`, verdicts `[true, false, false]`) the stage yields `[p, q]`: each surviving occurrence keeps its own place |
| `ProofFilter.JoinVerdicts` | app/src/hooks/notifications.ts:74-82 | `Promise.all` yields the verdicts in input order iff every classifier call resolved, and rejects if any one rejected |
| `ProofFilter.FilterProofsMembership` | app/src/hooks/notifications.ts:74-82 | a proof is in `nonAttestationProofs` iff some occurrence of it in `proofsRequested ++ proofsDone` was classified as not an attestation |
| `ProofFilter.FilterProofsIsSubsequence` | app/src/hooks/notifications.ts:74-82 | `nonAttestationProofs` is an order-preserving subsequence of `proofsRequested ++ proofsDone` |
| `ProofFilter.FilterProofsKeepsDuplicates` | app/src/hooks/notifications.ts:74-82 | the special case of `FilterProofs` with no attestation verdict: `nonAttestationProofs` is the whole concatenation, duplicates included |
| `Hook.NotificationsState.constructor` | app/src/hooks/notifications.ts:26-27 | both state fields start as empty lists |
| `Hook.NotificationsState.RecomputeNotifications` | app/src/hooks/notifications.ts:34-71 | the recomputation effect replaces `notifications` with the feed of the current inputs and `nonAttestationProofs`, which stays newest first, and changes nothing else |
| `Hook.NotificationsState.ReclassifyProofs` | app/src/hooks/notifications.ts:73-83 | the classification effect replaces `nonAttestationProofs` with the filtered proofs when every call resolved, and leaves it unchanged when one rejected |
| `Hook.ProofReachesFeed` | app/src/hooks/notifications.ts:58-82 | end to end, a proof is in the feed iff it is still worth showing and some occurrence of it was classified as not an attestation |
| `Hook.AttestationNeverInFeed` | app/src/hooks/notifications.ts:74-82 | a proof classified as an attestation wherever it occurs never reaches the feed, whatever its state |
| `Hook.VerifiedProofScenario` | app/src/hooks/notifications.ts:58-82 | a Done, verified proof with `details_seen` false is shown when the classifier says "not an attestation" and hidden when it says "attestation" |

## Left out

- React and credo plumbing is not modelled: `useAgent`, `useCredentialByState`, `useProofByState`, `useBasicMessages`, `useEffect`/`useState` and their dependency lists. Their outputs are the method parameters. When each effect re-runs is the framework's business.
- `isProofRequestingAttestation` is not part of this model. Its result is a parameter: one verdict per proof, in input order, or `None` for a call that rejected. The acting agent and `AttestationRestrictions` it receives are therefore not modelled.
- The concurrency of `Promise.all` is not modelled. Neither is the race between overlapping classification cycles, where a stale cycle can overwrite a newer one. Each call to `ReclassifyProofs` is one cycle that has completed.
- `createdAt` is an integer compared directly. The comparator's `new Date(...).getTime()` millisecond arithmetic is not modelled, and neither are invalid dates, for which the comparator yields NaN.
- The `credsReceived` subscription is not modelled. It only re-triggers the recomputation and contributes nothing to the feed.
- The metadata storage API (`metadata.get`, `metadata.data`) is not modelled. Each flag is an `Option<bool>` field. A non-boolean truthy `seen` or `details_seen` is outside the model. For `revoked_seen`, null and undefined are one case (`None`), as the loose `== undefined` test treats them.
- `isVerified` cannot be null in the model. `None` stands for undefined, which is the only value the `!== undefined` test rejects.
- Records are compared by value, not by reference. Two distinct records with identical fields cannot be told apart.
- `Array.prototype.sort` runs in place on the fresh array built by the spread. It is modelled as a function on sequences, since nothing else holds that array. The copy `[...notif]` changes nothing and is not modelled.
- Proof states other than RequestReceived, PresentationReceived and Done are not modelled. Those are the only states the hook subscribes to.
