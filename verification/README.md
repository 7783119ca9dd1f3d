# A Dafny model of a leader/follower TinyDB cluster

The repository runs a small replicated document store in two generations.
Each node is a Flask service with its own TinyDB file.

- **Second generation** (`nodes/leader.py`, `nodes/follower.py`):
  - A leader answers a form search by scatter-gather. It runs `perform_search` on its own store and asks every configured follower for its matches. It tags every record with the name of the node it came from, then concatenates the parts.
  - The leader inserts records locally and broadcasts them.
  - Followers apply replicated inserts, updates and deletes keyed by `_id`, and answer a health probe.
- **First generation** (`leader.py`, `follower.py` at the root):
  - A leader with two fixed followers evaluates a `{key, op, value}` comparison query on every node and removes duplicates from the gathered answer.
  - The leader inserts a document and replicates the request body to every follower.

The model is functional. A store is a `seq<Doc>`, and a record is a `map<string, Value>` over JSON nulls, integers and strings. Every route is a pure function from the store and the request to the new store and the answer. A Python exception is the `Raised` case of a `Result`. A remote node's reply is an input: `None` stands for a request that failed.

Files:

- `base.dfy`: `Option`, `Result`, flattening, de-duplication and repeated map assignment.
- `text.dfy`: Python's `strip`, ASCII `lower`, the substring test, `str()` and `int()` on integers, and `split(':')[-1]`. `strip()` and `int()` skip different whitespace. `strip()` removes every `isspace` character. CPython's `int()` skips the same characters except the ASCII information separators U+001C to U+001F.
- `documents.dfy`: records, request payloads, truthiness and Python's ordering of values.
- `search.dfy`: `perform_search` (`Search`) and its properties (`SearchProperties`).
- `replica.dfy`: the second-generation follower.
- `leader.dfy`: the second-generation leader (naming, search route, insert).
- `legacy.dfy`: the first-generation query (`LegacyQuery`), follower (`LegacyFollower`) and leader (`LegacyLeader`).

`perform_search` appears twice in the source, once in `nodes/leader.py` and once in `nodes/follower.py`, with the same clauses. The model has one `Search.PerformSearch`. The leader and the followers therefore answer alike on equal stores by construction.

Modelling assumptions:

- TinyDB's `update` and `remove` are taken to return the number of records they matched. This is what the handlers' `> 0` tests presume.
- TinyDB's `&` evaluates left to right and short-circuits, so a clause that raises aborts the whole `db.search`.
- A missing field makes a TinyDB test false. A test that calls `.lower()` on a non-string raises.
- The model follows the code:
  - the leader fans out to every configured follower with no health gating;
  - the leader's insert builds a record with no `_id`;
  - the broadcast goes to `/replicate`, a route that `nodes/follower.py` does not define. The model records only the requests sent and does not connect them to `replicate_insert`.

## Model

| member | source | states |
|---|---|---|
| Text.Strip | nodes/leader.py:20-22 | `strip()` returns the slice of its input that lies between an all-whitespace prefix and an all-whitespace suffix, and the result neither starts nor ends with whitespace |
| Text.StripEmptyIff | nodes/leader.py:20-27 | a stripped text is blank exactly when the raw text was all whitespace |
| Text.ParseIntIgnoresStrip | nodes/leader.py:31-34 | when `int()` accepts a raw text, it accepts the stripped text with the same value; on a text with no character U+001C to U+001F, stripping first never changes what `int()` gives |
| Text.IntRejectsSeparators | nodes/leader.py:118 | the two whitespace sets differ: `int()` rejects a number led by U+001C, while `int()` of the stripped text gives the number |
| Text.IsSubstringIff | nodes/leader.py:29 | Python's `q in s` holds exactly when `q` occurs in `s` at some index |
| Text.IntToStringRoundTrip | nodes/leader.py:118 | `int(str(i)) == i` for every integer, negative ones included, with no limit on the number of digits (see Left out) |
| Text.AfterLastColonSpec | nodes/leader.py:75 | the port text of a URL is its longest colon-free suffix |
| Documents.LessTrichotomy | leader.py:57 | two integers or two strings satisfy exactly one of `<`, `==`, `>`; any other pair makes both orderings raise |
| Search.TestAll | nodes/leader.py:45-48 | the AND-combined condition holds exactly when every clause holds, and raises exactly when some clause raises after all earlier clauses held |
| Search.SearchStore | nodes/leader.py:50 | `db.search` keeps each record that satisfies every clause, as often as it is stored, and fails exactly when some stored record makes a clause raise |
| SearchProperties.SearchStoreAppend | nodes/leader.py:50 | matches keep stored order: searching two consecutive stretches of the store and joining the results is searching the whole store |
| Search.PerformSearch | nodes/leader.py:14-54 | a record is returned exactly when the request yields at least one clause, no record makes a clause raise, the record is stored, and it satisfies every clause; otherwise the result is empty |
| SearchProperties.PerformSearchAppend | nodes/leader.py:14-54 | the answer keeps stored order: when no record makes the request's clauses raise, the answer for a store is the answer for its first stretch followed by the answer for the rest |
| SearchProperties.ContainsClauseIff | nodes/leader.py:27-29 | a name or city clause holds exactly when the field is a string whose lower-cased text contains the lower-cased query, and raises exactly when the field holds a non-string |
| SearchProperties.SubstringSearch | nodes/leader.py:20-39 | a search on name alone, or city alone, returns exactly the stored records whose field contains the stripped query, ignoring ASCII case |
| SearchProperties.AgeSearch | nodes/leader.py:31-34 | a search on an integer age alone returns exactly the records whose age equals that integer |
| SearchProperties.UnparsableAgeIgnored | nodes/leader.py:33-36 | an age text whose stripped form `int()` rejects changes nothing: the answer is the one for a blank age |
| SearchProperties.BlankQueryFindsNothing | nodes/leader.py:41-43 | a request whose fields are all missing or whitespace returns nothing, whatever the store holds |
| SearchProperties.NonStringNameEmptiesSearch | nodes/leader.py:52-54 | one stored record with a non-string name makes every name search return nothing, because the exception is swallowed |
| SearchProperties.SearchWith | nodes/follower.py:20-46 | the follower's copy of the search returns exactly the stored records that satisfy all the request's clauses, when no record makes them raise |
| Replica.UpdateWhere | nodes/follower.py:97-98 | every record with the id gets the supplied fields merged in, keeping its other fields; records with other ids are untouched; with no match the store is unchanged |
| Replica.RemoveWhere | nodes/follower.py:123-124 | exactly the records with the id are removed; every other record is kept as often as it was stored; the count removed is the count matched |
| Replica.RemoveWhereAppend | nodes/follower.py:123-124 | the kept records stay in stored order: removing from a store is removing from each of two consecutive stretches of it and joining the results |
| Replica.ReplicateInsert | nodes/follower.py:66-80 | 200 and the document appended unchanged exactly when it is an object holding `_id`; 400 for a missing or falsy document or one without `_id`; the store is unchanged on every non-200 answer |
| Replica.ReplicateUpdate | nodes/follower.py:85-107 | a falsy `_id` or `data` gives 400 and leaves the store alone; 200 exactly when some record matched; 404 exactly when none did, with the store unchanged; on every answer after the checks, 500 included, the store is the merge of an object `data` into the matching records, and unchanged for a non-object `data` |
| Replica.ReplicateDelete | nodes/follower.py:112-133 | a falsy `_id` gives 400; otherwise exactly the matching records are removed; 200 exactly when one was removed, 404 with the store unchanged when none was |
| Replica.HealthCheck | nodes/follower.py:155-160 | the probe takes no state and is answered 200 with status `ok` |
| Replica.UpdateIdempotent | nodes/follower.py:94-105 | replaying a replicated update leaves the store as the first application left it |
| Replica.MergeTwice | nodes/follower.py:98 | merging the same fields into a record twice is merging them once |
| Replica.DeleteIdempotent | nodes/follower.py:119-131 | replaying a replicated delete is answered 404 and changes nothing further |
| Replica.InsertThenDeleteRestores | nodes/follower.py:66-133 | deleting the id of a freshly replicated insert restores the previous store and is answered 200 |
| Leader.FollowerNames | nodes/leader.py:74-76 | the follower at index `i` is named `Follower {i+1} ({port})` |
| Leader.NodeMap | nodes/leader.py:68-76 | `NODE_MAP` has exactly the leader's URL and the follower URLs as keys; each follower URL is named after its last occurrence, and the leader URL keeps the leader's name unless a follower reuses it |
| Leader.NodeMapNames | nodes/leader.py:69-76 | with distinct follower URLs, every node is named after its own position |
| Leader.FollowerNamesDistinct | nodes/leader.py:70-76 | followers at different positions get different names, and no follower is named like the leader |
| Leader.Tag | nodes/leader.py:182-195 | tagging sets `source_node` on every record and changes nothing else |
| Leader.SearchRoute | nodes/leader.py:140-201 | all-empty raw form values end with the error and no follower request; otherwise every follower is asked, the answer is the leader's tagged matches followed by each follower's tagged reply in configuration order, and the reported total is the answer's length |
| Leader.MergeLength | nodes/leader.py:184-196 | the merged answer's length is the leader's count plus the sum of the followers' counts |
| Leader.ReplyIsolated | nodes/leader.py:165-199 | a failed follower contributes nothing and leaves every other node's records in place and in order |
| Leader.MergeOrigin | nodes/leader.py:179-196 | every merged record is a record from the leader or from a follower that answered, tagged with that node's name |
| Leader.MergeComplete | nodes/leader.py:179-196 | every record the leader found and every record an answering follower returned appears in the answer, tagged |
| Leader.WhitespaceQueryPassesValidation | nodes/leader.py:152-160 | a whitespace-only query passes the raw-value check and reaches every follower, while the leader's own part of the answer is empty |
| Leader.Broadcast | nodes/leader.py:80-91 | one `{"document": doc}` request to `<url>/replicate` per follower, in configuration order |
| Leader.Insert | nodes/leader.py:111-129 | a missing form field or a non-integer age stores and sends nothing; otherwise the record `{name, age, city}` is appended without `_id` and then broadcast |
| Leader.InsertedFoundByAge | nodes/leader.py:116-122 | a record the insert page stored is found by a search of the leader's store on the age text it was inserted with |
| Leader.SeparatorAgeRefused | nodes/leader.py:116-129 | an age text led by U+001C, which `int()` rejects, makes the insert page store and send nothing |
| LegacyQuery.Scan | leader.py:59 | `db.search` with a comparison keeps each passing record as often as stored, and raises exactly when some record's comparison raises |
| LegacyQuery.ScanAppend | leader.py:59 | passing records keep stored order: scanning two consecutive stretches of the store and joining the results is scanning the whole store |
| LegacyQuery.Select | leader.py:52-60 | a malformed query raises; an unknown operator selects nothing; otherwise the result is exactly the stored records whose field compares as asked |
| LegacyQuery.SelectAppend | leader.py:52-60 | selected records keep stored order: selecting from two consecutive stretches of the store and joining the results is selecting from the whole store |
| LegacyQuery.CompareTrichotomy | leader.py:57 | `>` is `<` with its operands swapped; on orderable values exactly one of `>`, `<`, `==` holds; on other pairs both orderings raise and `==` does not |
| LegacyQuery.EqualitySelects | follower.py:46-52 | an `==` query never raises and selects exactly the records holding the value under the key |
| LegacyQuery.UnknownOpSelectsNothing | leader.py:58-60 | an operator other than `>`, `<`, `==` yields `[]` |
| LegacyQuery.MixedTypesRaise | follower.py:48-50 | an ordering query raises when a stored value under the key cannot be ordered against the query value |
| LegacyQuery.OpsPartition | leader.py:55-59 | when all values under the key are orderable against the query value, each record holding the key is selected by exactly one of `>`, `<`, `==`, and records without the key by none |
| LegacyFollower.HandleReplicate | follower.py:21-34 | no `document` gives 400; an object is appended as-is with no `_id` check and answered 200; anything else gives 500; the store changes only on 200 |
| LegacyFollower.HandleLocalSearch | follower.py:36-54 | no `query` gives 400; a raising query gives 500; otherwise 200 with exactly the selected records; the store is only read |
| LegacyLeader.ReplicateToFollowers | leader.py:25-32 | the whole request body is posted to `<url>/replicate` of every follower, in `FOLLOWER_NODES` order |
| LegacyLeader.HandleInsert | leader.py:34-50 | no `document` gives 400 and a refused document 500, neither stored nor replicated; otherwise the document is stored first and then replicated |
| LegacyLeader.InsertReplicates | leader.py:41-50 | every replication request, when handled by a follower, appends exactly the record the leader stored and is answered 200 |
| LegacyLeader.InsertReachesCluster | leader.py:25-32 | after a successful insert each reached follower holds its old records plus the new one, and each unreached follower is unchanged |
| LegacyLeader.HandleSearch | leader.py:62-98 | no `query` gives 400; otherwise, with the corrected by-record de-duplication (see Findings), the answer has no two equal records and holds exactly the records the leader selected or an answering follower returned |
| LegacyLeader.GatherMembership | leader.py:83-95 | a gathered record comes from the leader's own selection or from the reply of a follower that answered 200; errors contribute nothing |
| LegacyLeader.ReplicasCollapse | leader.py:97 | with the corrected by-record de-duplication, the answer on a fully replicated cluster is the leader's selection with every record exactly once |
| LegacyLeader.DedupByItems | leader.py:97 | de-duplication by item tuples, as written: its output holds exactly the records of the gathered item lists, one per distinct item list, so two item lists that differ only in key order both survive |
| LegacyLeader.KeyOrderDefeatsDedup | leader.py:97 | two key orders of one record survive de-duplication by item tuples as two equal records, while de-duplication by record keeps one |

## Left out

- Flask routing, JSON and form parsing, `jsonify`, `render_template` and the `nodes_list` rebuilt for the page. Request bodies are modelled as JSON objects. A body that is a list, a scalar or invalid JSON is not modelled.
- `requests`, timeouts, `ThreadPoolExecutor` and `as_completed`. A follower's reply is an input, `None` when the request failed. The gathered parts are taken in configuration order.
- LegacyLeader.HandleSearch: states which records the answer holds and that none repeats, but not their order. The source's order depends on thread completion and on the iteration order of a Python set. The route uses the corrected by-record de-duplication (see Findings), so "none repeats" does not hold of `leader.py:97` as written. The de-duplication as written is `LegacyLeader.DedupByItems`, and `LegacyLeader.KeyOrderDefeatsDedup` shows it letting a duplicate through.
- TinyDB file persistence, document ids and the query cache. Also left out: the leader's tagging of its own search results in place, which may reach the cached copies.
- JSON booleans, floats, arrays and nested objects as field values. Python compares these with rules of their own.
- Full Unicode case folding. `lower()` is ASCII only. `int()` accepts ASCII digits only.
- Text.ParseInt: accepts digit strings of any length. CPython 3.11 and later (and the 3.7-3.10 security releases) raise `ValueError` in `int()` past 4300 digits by default, and the bound can be changed at run time. An age of more than 4300 digits is therefore dropped by the search (`nodes/leader.py:33-36`) and refused by the insert (`nodes/leader.py:118`) under such an interpreter. The model instead keeps the age clause and stores the record.
- Text.IntToStringRoundTrip: holds for every integer only because `str()` is modelled without the same 4300-digit limit.
- The `/status` and `/shutdown` routes, the index page, `local_search_api` of `nodes/leader.py`, argparse and `__main__` blocks, and print logging.
- `run.py`, `run_demo.py`, `populate_demo.py` and `sample_data.py`. These are launch and seeding scripts with no logic of their own.
- Leader.Broadcast: records the requests sent but not their delivery. No route of `nodes/follower.py` receives them.

## Findings

| source | as written | input that shows it | evidently intended | confidence | as-written member | corrected member |
|---|---|---|---|---|---|---|
| leader.py:97 | duplicates are removed by comparing `tuple(d.items())`, which depends on the key order of each dict | A record inserted as `{name, age, city}` keeps that key order in the leader's store. The followers' JSON replies come back with sorted keys. Gathering both yields `[(age, city, name), (age, city, name), (name, age, city)]`, and two equal records survive. | each distinct record appears once: de-duplication by record equality | medium, not executed | LegacyLeader.KeyOrderDefeatsDedup | LegacyLeader.ReplicasCollapse |
