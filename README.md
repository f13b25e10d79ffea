# Metadata re-crawl driver, modelled in Dafny

This project models the token-metadata crawler of mooncrawl
(`crawlers/mooncrawl/mooncrawl/metadata_crawler/cli.py`). The crawler is a batch job. For one
blockchain, it lists every token URI, groups the URIs by contract address, and then handles
each address in turn:

- It computes a leak rate from the recrawl budget and the number of tokens flagged "maybe
  updated".
- The staleness sampler (`leak_of_crawled_uri`) decides which already-parsed tokens to skip.
  Unflagged tokens are always skipped. A flagged token is re-fetched with probability equal to
  the leak rate.
- The remaining tokens form the address's work list. It is sliced into commit batches.
- Each batch fetches every token's metadata with the bounded-retry fetcher (`crawl_uri`, at
  most 3 attempts). It stages one label per token, stages a clean-up of old labels, and commits
  everything as one transaction. Any error rolls back the whole batch, and the run moves on to
  the next batch.
- After all batches, one more clean-up runs for the address.

The model is organised as follows:

- `Seqs.dfy`: order-preserving selection, filtering and flattening of sequences.
- `Wrappers.dfy`: `Option`.
- `Sampler.dfy`: the leak rate and `leak_of_crawled_uri`. Randomness is a supplied draw
  function: `draw(k)` is the k-th value `random.random()` returns. The float rate is an exact
  `real`.
- `Fetcher.dfy`: `crawl_uri`. The network is a supplied attempt function: `attempt(k)` is the
  outcome of the k-th try, which is one of `Ok(payload)`, `BadStatus`, `HttpFailure`,
  `OtherFailure` or `BadJson`.
- `WorkList.dfy`: the token-URI record, grouping by address, removing the skipped tokens, and
  slicing into batches.
- `LabelStore.dfy`: the write session, modelled as a log of label-table operations. The log
  holds committed operations and operations staged in the open transaction. The operations
  are inserting a label and the clean-up.
- `Crawler.dfy`: one batch transaction (`WriteChunk`), one address (`CrawlAddress`) and the
  whole run (`ParseMetadata`). Each is an imperative method, proved equal to a specification
  function over the store.
- `CrawlerProperties.dfy`: lemmas about those specification functions.

Behaviour of the code worth knowing:

- A budget of 0 can still re-fetch a token. The sampler keeps a flagged id only when the draw
  is strictly greater than the rate. So at rate 0, a draw of exactly `0.0` (which
  `random.random()` can return) re-fetches the token. With every draw above zero, rate 0
  re-fetches nothing (`LeakAtZeroRate`, `LeakAtZeroRateZeroDraw`).
- The batch size is not checked. A batch size of 0 makes `range` raise, and the run aborts. A
  negative batch size gives no batches at all, but the address's final clean-up still runs.
- A negative budget gives a negative leak rate whenever some token is flagged. The sampler's
  assertion then fails, and the whole run aborts.
- The sampler's inputs are lists, not sets. The leak rate divides by the length of the "maybe
  updated" list, duplicates included.
- The fetcher returns the same value for a body that parses to JSON `null` as for three
  failed attempts.
- The clean-up at the end of an address runs outside any batch transaction. The model stages
  it in the session's open transaction. The next batch's opening `commit` makes it durable. An
  address with no batches leaves it pending, behind any clean-up still pending from earlier.
  Clean-ups still pending when the run ends are discarded by `db_session.close()` (cli.py:200)
  and never become durable.
- Two database calls run outside the batch's `try`: the `commit` that opens each batch and
  the final clean-up of each address. An error in either is caught by nothing, so it ends the
  whole run. The model has an input for each (`commitRaises(i)` for batch `i`, and
  `cleanupRaises`) and an abort cause for each (`CommitFailure`, `CleanupFailure`).

## Model

| member | source | states |
|---|---|---|
| Sampler.LeakRate | crawlers/mooncrawl/mooncrawl/metadata_crawler/cli.py:126-132 | rate is 0 with nothing flagged, 1 when the budget covers every flagged id, budget/flagged otherwise; it lies in [0, 1] exactly when nothing is flagged or the budget is not negative |
| Sampler.LeakOfCrawledUri | crawlers/mooncrawl/mooncrawl/metadata_crawler/cli.py:40-56 | a rate outside [0, 1] fails the assertion; otherwise the loop returns exactly the sampler's kept ids, drawing once per flagged id in order |
| Sampler.LeakSelectsByMask | crawlers/mooncrawl/mooncrawl/metadata_crawler/cli.py:48-56 | the kept ids are the positions of `ids` chosen by the per-id keep/leak decision, in order, and only flagged positions are ever dropped |
| Sampler.LeakIsSubsequence | crawlers/mooncrawl/mooncrawl/metadata_crawler/cli.py:48-56 | the result is an order-preserving subsequence of `ids` with no new element, from which only flagged ids are missing |
| Sampler.LeakKeepsUnflagged | crawlers/mooncrawl/mooncrawl/metadata_crawler/cli.py:50-52 | every kept id is in `ids`, and every id not flagged is kept, whatever the rate and the draws |
| Sampler.LeakAtFullRate | crawlers/mooncrawl/mooncrawl/metadata_crawler/cli.py:50-54 | at rate 1 with draws in [0, 1) the kept ids are exactly the unflagged ids, in order |
| Sampler.LeakAtZeroRate | crawlers/mooncrawl/mooncrawl/metadata_crawler/cli.py:53-54 | at rate 0 with every draw above 0 nothing leaks: all ids are kept |
| Sampler.LeakAtZeroRateZeroDraw | crawlers/mooncrawl/mooncrawl/metadata_crawler/cli.py:53-54 | at rate 0 a draw of exactly 0.0 still leaks a flagged id |
| Fetcher.FetchFromBounds | crawlers/mooncrawl/mooncrawl/metadata_crawler/cli.py:63-83 | from any retry count, the loop stops within 3 attempts, every attempt before the last failed, a last successful attempt gives its payload, and otherwise 3 attempts were made and the result is null |
| Fetcher.CrawlUri | crawlers/mooncrawl/mooncrawl/metadata_crawler/cli.py:59-83 | between 1 and 3 attempts; returns the payload of the first 200 response whose body parsed; any failure kind costs one attempt; after 3 failures returns null without raising |
| Fetcher.FetchFirstSuccess | crawlers/mooncrawl/mooncrawl/metadata_crawler/cli.py:69-71 | a first attempt that succeeds is the only one, and its payload is returned |
| Fetcher.FetchAllFail | crawlers/mooncrawl/mooncrawl/metadata_crawler/cli.py:65-83 | three failed attempts of any kind give null after exactly 3 attempts |
| WorkList.AddressesOf | crawlers/mooncrawl/mooncrawl/metadata_crawler/cli.py:105-112 | the dictionary's keys, in insertion order, hold each address once and the address of every record |
| WorkList.KeysAreRecordAddresses | crawlers/mooncrawl/mooncrawl/metadata_crawler/cli.py:105-110 | every key is the address of some record, so no key holds an empty list; with `AddressesOf`, the keys are exactly the record addresses |
| WorkList.GroupByAddress | crawlers/mooncrawl/mooncrawl/metadata_crawler/cli.py:105-110 | the keys are the record addresses in first-appearance order, and each key maps to exactly the records with that address, in input order |
| WorkList.GroupStep | crawlers/mooncrawl/mooncrawl/metadata_crawler/cli.py:107-110 | one iteration of the grouping loop: opening an empty list for a new address at the end of the key order and appending the record keeps every key's list equal to that address's records so far, in input order |
| WorkList.GroupsPartition | crawlers/mooncrawl/mooncrawl/metadata_crawler/cli.py:107-110 | the groups taken together hold every input record exactly as often as the input does |
| WorkList.RecordsAtUnlisted | crawlers/mooncrawl/mooncrawl/metadata_crawler/cli.py:108-109 | an address that is not a key has no records, so a new key starts with an empty list |
| WorkList.Pending | crawlers/mooncrawl/mooncrawl/metadata_crawler/cli.py:149-153 | the comprehension that keeps, in the group's order, the records whose token id the sampler did not keep; the work list is never longer than the group |
| WorkList.PendingIsSelect | crawlers/mooncrawl/mooncrawl/metadata_crawler/cli.py:149-153 | the work list is the group with the kept tokens removed, in the group's order: a selection of the group's positions by "id not kept" |
| WorkList.PendingMembers | crawlers/mooncrawl/mooncrawl/metadata_crawler/cli.py:149-153 | a record is in the work list exactly when it is in the group and its id was not kept |
| WorkList.WorkListRespectsFlags | crawlers/mooncrawl/mooncrawl/metadata_crawler/cli.py:134-153 | for any rate and draws, a token never parsed is always crawled, and a parsed token not flagged is never crawled |
| WorkList.WorkListAtFullRate | crawlers/mooncrawl/mooncrawl/metadata_crawler/cli.py:126-153 | at rate 1 the work list holds exactly the tokens never parsed or flagged as maybe updated |
| WorkList.Chunks | crawlers/mooncrawl/mooncrawl/metadata_crawler/cli.py:155-158 | the work list cut into consecutive slices of the batch size, the last possibly shorter; never more slices than items |
| WorkList.ChunkSlices | crawlers/mooncrawl/mooncrawl/metadata_crawler/cli.py:155-158 | the batch comprehension over `range(0, len, batch_size)`: no result (range raises) exactly when the batch size is zero, no batches for a negative batch size, and for a positive one batches that concatenate back to the work list |
| WorkList.ChunksPartition | crawlers/mooncrawl/mooncrawl/metadata_crawler/cli.py:155-158 | the batches concatenate back to the work list; all but the last hold exactly batch-size items; the last is non-empty; no batches exactly when the work list is empty |
| WorkList.ChunkCount | crawlers/mooncrawl/mooncrawl/metadata_crawler/cli.py:155-158 | there is one batch per start index 0, n, 2n, ... below the work-list length |
| WorkList.ChunkAt | crawlers/mooncrawl/mooncrawl/metadata_crawler/cli.py:155-158 | batch k is the slice from k*n to k*n+n (clipped to the length), as the comprehension builds it |
| LabelStore.WriteSession.constructor | crawlers/mooncrawl/mooncrawl/metadata_crawler/cli.py:96 | a fresh write session has committed nothing and has no open transaction |
| LabelStore.WriteSession.Commit | crawlers/mooncrawl/mooncrawl/metadata_crawler/cli.py:160 | the staged operations become durable, after those already durable |
| LabelStore.WriteSession.Rollback | crawlers/mooncrawl/mooncrawl/metadata_crawler/cli.py:186-191 | the staged operations are discarded; durable ones are untouched |
| LabelStore.WriteSession.Add | crawlers/mooncrawl/mooncrawl/metadata_crawler/cli.py:167-173 | one label insertion is staged; nothing becomes durable |
| LabelStore.WriteSession.CleanLabels | crawlers/mooncrawl/mooncrawl/metadata_crawler/cli.py:177-181 | one clean-up for the (blockchain, address) scope is staged; nothing becomes durable |
| Crawler.ChunkLabels | crawlers/mooncrawl/mooncrawl/metadata_crawler/cli.py:164-173 | the labels a batch stages, one per item, so as many as the batch has items |
| Crawler.ChunkLabelAt | crawlers/mooncrawl/mooncrawl/metadata_crawler/cli.py:164-173 | the label staged for item j of a batch carries that item and the metadata fetched for it, whatever the fetch outcomes |
| Crawler.WriteChunk | crawlers/mooncrawl/mooncrawl/metadata_crawler/cli.py:159-191 | pending work is committed first; then either all of the batch's labels and its clean-up are committed together, with the label count equal to the batch length, or an error anywhere in the batch commits none of them; no transaction is left open |
| Crawler.CrawlAddress | crawlers/mooncrawl/mooncrawl/metadata_crawler/cli.py:112-197 | the inline leak-rate computation agrees with the leak-rate definition; the sampler, work list, batches and final clean-up then follow the address specification, aborting on the sampler's assertion, on a zero batch size, on a batch-opening commit that raises (leaving the batches before it committed), or on a final clean-up that raises |
| Crawler.VisitKeepsGroups | crawlers/mooncrawl/mooncrawl/metadata_crawler/cli.py:149-153 | replacing the current address's list by its work list keeps the keys and leaves the lists of the addresses still to visit untouched |
| Crawler.ParseMetadata | crawlers/mooncrawl/mooncrawl/metadata_crawler/cli.py:86-200 | the addresses are crawled in key order, each with its own group, and the run stops at the first aborting address |
| CrawlerProperties.ChunksCommitWhole | crawlers/mooncrawl/mooncrawl/metadata_crawler/cli.py:155-191 | across an address's batches, each batch commits all of its labels and its clean-up or nothing, a failed batch is followed by the next, a batch-opening commit that raises stops the loop with the store unchanged from that point, and no transaction stays open once any batch ran |
| CrawlerProperties.ChunksEscape | crawlers/mooncrawl/mooncrawl/metadata_crawler/cli.py:155-162 | the batch loop raises out of the address exactly when the commit opening one of its batches raises |
| CrawlerProperties.ChunkLabelsCoverChunk | crawlers/mooncrawl/mooncrawl/metadata_crawler/cli.py:164-174 | a batch stages one label per item, in the batch's order |
| CrawlerProperties.FaultlessChunksLabelEveryItem | crawlers/mooncrawl/mooncrawl/metadata_crawler/cli.py:155-174 | with no errors, every item of every batch gets exactly one committed label, in order |
| CrawlerProperties.AddressEndsWithOneCleanup | crawlers/mooncrawl/mooncrawl/metadata_crawler/cli.py:155-197 | an address that does not abort leaves exactly one clean-up of its own pending after its batches; with batches it commits what was pending before and then each batch whole or not at all |
| CrawlerProperties.AddressLabelsWorkList | crawlers/mooncrawl/mooncrawl/metadata_crawler/cli.py:149-197 | with a positive batch size, a budget that is not negative and no errors, the address does not abort and every work-list token gets exactly one committed label, in work-list order |
| CrawlerProperties.AddressAborts | crawlers/mooncrawl/mooncrawl/metadata_crawler/cli.py:126-197 | an address aborts exactly when the batch size is zero, or the budget is negative and some token is flagged, or the commit opening one of its batches raises, or its final clean-up raises |
| CrawlerProperties.RunAborts | crawlers/mooncrawl/mooncrawl/metadata_crawler/cli.py:100-200 | the run ends early exactly when some address it reaches meets one of those four errors; the conditions do not depend on the store, so it is the first such address in key order |

## Left out

- The HTTP request (`urllib.request.urlopen`, its timeout) and `json.loads`: each attempt's outcome is an input.
- `random.random()`: each draw is an input. No statistical claim is made about the expected number of leaked ids.
- Floating point: the leak rate is an exact rational (`real`), so rounding in `max_recrawl / len(maybe_updated)` is not modelled.
- `get_uris_of_tokens`, `get_current_metadata_for_address` and `get_tokens_id_wich_may_updated`: their results are inputs. Errors they raise would abort the run, and those errors are not modelled.
- `metadata_to_label`: a label is modelled as (blockchain tag, token record, metadata). The crawl timestamp is left out.
- `clean_labels_from_db`: its body is not part of this model. It is recorded as an operation on the store, and what it deletes is not modelled, so the "at most one current label per token" invariant is not stated. If it commits on its own, the final clean-up would be durable earlier than the model says.
- `db_session.close()` in the `finally` block: the model's final store keeps operations still staged as pending, which close discards; none of them becomes durable.
- The read-only session and `yield_session_maker`: connection management with no effect on which operations commit.
- Exceptions outside `Exception` (such as `KeyboardInterrupt`) that escape the batch handler are not modelled.
- Logging, `handle_crawl`, `main` and argument parsing are left out. The defaults (batch 50, budget 300) are not modelled. The blockchain type is an opaque string tag.
- `engineapi/engineapi/models.py`: table declarations with no behaviour.
