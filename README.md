# Insurance policy manager — a Dafny model of its core

This project models the core of an insurance-policy manager. Users register and
log in. They file their policies together with uploaded PDF documents and see a
dashboard summarising them. A separate pipeline splits the documents into
overlapping text chunks for a vector collection. A question endpoint packs the
chunks it retrieves into a prompt for a language model. The model covers:

- **PolicyModel** (`policy_model.dfy`): the `Policy` row and the schema's rules for
  a new row. The three names and the owner are required. `status` is an enum of
  "active"/"inactive" with "active" as the default. `documents` defaults to the
  empty list.
- **PolicyStore** (`policy_store.dfy`): the policy controller as a class `Store`.
  It holds the table (`map<nat, Policy>`), the upload directory (`set<string>`
  of existing paths) and the next id. Its methods are `AddPolicy`, `GetPolicies`,
  `GetPolicyById`, `DeletePolicy` and `GetDashboard`.
- **Dashboard** (`dashboard.dfy`): the statistics computed over one owner's
  policies. These are the active count, the total coverage, the total of
  monthly premiums and the "expiring soon" list.
- **Auth** (`auth.dfy`): registration and login as a class `UserTable` over a
  map keyed by email. Hashing and token signing are symbolic: a hash is its own
  datatype, and a token records its payload and expiry.
- **Chunking** (`chunking.dfy`): the sliding-window splitter (800 characters,
  100 overlap). The `while` loop is proved equal to a closed-form definition by
  window index.
- **Ingestion** (`ingestion.dfy`): path construction, chunk ids and metadata, and
  the batches added per document. A class `Ingestor` holds the last-ingested
  watermark and the list of batches handed to the collection. A batch the
  collection refuses raises, which ends the run before that policy's id is
  recorded as the watermark.
- **Retrieval** (`retrieval.dfy`): prompt packing under the character budget,
  and the request validation and response shaping of the `/query` endpoint. The
  vector search and the language model are parameters.
- **PolicyFilter** (`policy_filter.dfy`): the "My Policies" page's case-insensitive
  search, its status filter and its tab counts.
- **Text**, **Seqs**, **Wrappers**: supporting modules. Text has lower-casing,
  substring search, decimal formatting, and Python's `strip`, `lstrip(c)` and
  `join`. Seqs has JavaScript's `filter`, `filter().length` and `reduce` sums
  with their algebra. Wrappers has `Option` and `Result`.

The model follows the code where it is stricter or looser than one might expect:

- A missing `status` makes `status.toLowerCase()` throw, so `addPolicy` answers
  500. The schema default "active" is therefore never reached through that
  endpoint.
- Any status other than "active"/"inactive" after lower-casing is refused by
  the database. This includes "Expired", which the client offers.
- The upload middleware writes the files before the controller runs. A create
  that is then refused leaves them in the upload directory.
- `getPolicyById` queries by id and owner together. Another user's policy
  therefore answers 404 exactly like an absent id. Only `deletePolicy` tells the
  two apart (404 and 403).

## Model

| member | source | states |
|---|---|---|
| PolicyModel.FromAttributes | Backend/models/Policy.js:4-18 | a row is admitted iff the three names and the owner are present and the status (default "active") is one of the enum's values; the row is storable, takes status default "active" and documents default [], and copies owner, names, type, amounts, frequency, dates and notes |
| PolicyModel.EnumRejectsOtherStatuses | Backend/models/Policy.js:12-14 | the status "expired" is refused, an absent status is admitted, and a row whose end date precedes its start date is still admitted |
| PolicyStore.DocumentPaths | Backend/controllers/policyController.js:27 | one path per uploaded file, in upload order, each "/uploads/" followed by the file name |
| PolicyStore.InsertionPoint | Backend/controllers/policyController.js:57 | in a newest-first listing, every row before the point is at least as new as `p` and every row after it is older |
| PolicyStore.InsertKeepsListing | Backend/controllers/policyController.js:55-58 | inserting one more scanned row of the owner at its insertion point keeps the listing sound, complete for the scanned ids, free of duplicates and newest first |
| PolicyStore.Store.AddPolicy | Backend/controllers/policyController.js:6-50 | a missing or empty name, number or company gives ValidationError; a missing status gives ServerError; a lower-cased status outside the enum gives StorageError; every failure leaves the table alone; success adds exactly one new row under a fresh id with documents = the upload paths, lower-cased status, the caller as owner, creation time `now`, and names, type, amounts, frequency, dates and notes copied from the request; the row is then found by GetPolicyById; the upload directory never changes |
| PolicyStore.Store.GetPolicies | Backend/controllers/policyController.js:53-65 | the result lists every policy of the caller exactly once and nothing else, ordered by creation time descending |
| PolicyStore.Store.GetPolicyById | Backend/controllers/policyController.js:125-142 | success iff the id exists and belongs to the caller, and then it is that row; every failure is NotFound |
| PolicyStore.ForeignAndAbsentLookIdentical | Backend/controllers/policyController.js:129-135 | an absent id and another user's policy give the same NotFound answer |
| PolicyStore.Store.DeletePolicy | Backend/controllers/policyController.js:68-98 | absent id gives NotFound and another owner's policy gives Forbidden, both changing nothing; otherwise every referenced file that exists is removed, missing ones are skipped, only that row is removed, and the policy is no longer found |
| PolicyStore.Store.GetDashboard | Backend/controllers/policyController.js:101-117 | the statistics are `Dashboard.Compute` over a listing of exactly the caller's policies |
| PolicyStore.ListingsArePermutations | Backend/controllers/policyController.js:103-109 | any two listings of one owner's policies are permutations of each other and give the same active count, coverage total and monthly total |
| Dashboard.Compute | Backend/controllers/policyController.js:103-112 | the active count and the expiring list are no longer than the input, and every listed policy satisfies endDate - now <= 7 days |
| Dashboard.ComputeSingle | Backend/controllers/policyController.js:105-112 | one policy counts as active iff its status is exactly "active", adds its coverage (NULL as 0), adds its premium to the monthly total iff billed exactly "Monthly", and is listed iff its end date (NULL as the epoch) is at most 604800000 ms ahead |
| Dashboard.MonthlyTotalIsSumOfContributions | Backend/controllers/policyController.js:107-109 | filtering to "Monthly" and summing premiums equals summing each policy's premium if monthly and 0 otherwise |
| Dashboard.ExpiringSoonExactly | Backend/controllers/policyController.js:110-112 | a policy is in the expiring list iff it is one of the caller's and endDate - now <= 604800000 ms; the list keeps the input order |
| Dashboard.PastAndUndatedAreExpiringSoon | Backend/controllers/policyController.js:110-112 | a policy that already ended, or has no end date (read as the epoch), is in the expiring list |
| Dashboard.ComputeAppend | Backend/controllers/policyController.js:105-112 | the statistics of two lists together are the sums of their statistics, and their expiring lists are concatenated |
| Dashboard.ComputeIgnoresOrder | Backend/controllers/policyController.js:103-109 | reordering the rows does not change the active count, coverage total or monthly total |
| Dashboard.LowerCaseMonthlyIsNotCounted | Backend/controllers/policyController.js:108 | a policy billed "monthly" in lower case adds nothing to the monthly total |
| Dashboard.TwoPolicyScenario | Backend/controllers/policyController.js:105-112 | an active monthly policy ending in 3 days and an inactive annual one ending in 400 days give 1 active, coverage 150000, monthly 500 and only the first expiring |
| Auth.GenerateToken | Backend/controllers/authController.js:83-87 | the token carries the user id and expires 2592000 seconds (30 days) after issue |
| Auth.UserTable.Register | Backend/controllers/authController.js:6-44 | any missing field gives MissingFields and an existing email gives UserExists, both with the table unchanged; success iff all fields are present and the email is new; success adds one user under its email with a fresh id and the bcrypt hash (cost 10) of the password; the response carries id, name, email and a token, and no password |
| Auth.UserTable.Login | Backend/controllers/authController.js:47-80 | a missing field gives MissingFields; success iff the email is known and the password matches its hash; an unknown email and a wrong password give the same InvalidCredentials; success returns the public user and a token for its id; the table is only read |
| Auth.RegisterThenLogin | Backend/controllers/authController.js:10-75 | on a fresh table: register succeeds, registering the same email again fails, login with the password returns the registered user with a token valid now and expired 30 days later, and a wrong password fails like an unknown email |
| Chunking.Slice | Backend/policy_vector_pipeline/pipeline.py:68 | Python's clamped slice: no longer than the text or the bound span, and the exact sub-sequence when the start is inside the text |
| Chunking.Chunks | Backend/policy_vector_pipeline/pipeline.py:63-70 | the closed form of the windows: there are none exactly when the text is empty |
| Chunking.CountOfWindows | Backend/policy_vector_pipeline/pipeline.py:66-69 | windows started `step` apart until one starts past the end number ceil(n / step) |
| Chunking.ChunkText | Backend/policy_vector_pipeline/pipeline.py:63-70 | the loop yields exactly the windows `text[i*step : i*step+size]` for i below ceil(len/step); a non-empty text needs step = size - overlap > 0 for the walk to end, the empty text needs nothing |
| Chunking.EmptyTextHasNoChunks | Backend/policy_vector_pipeline/pipeline.py:64-70 | the empty text has no chunks, whatever the window arguments |
| Chunking.ChunkCountAndBounds | Backend/policy_vector_pipeline/pipeline.py:66-69 | the windows reach the end of the text, the last one starts inside it, and no chunk is longer than `size` |
| Chunking.ChunkAt | Backend/policy_vector_pipeline/pipeline.py:68 | chunk i is `text[i*step : i*step+size]` |
| Chunking.EveryCharacterIsCovered | Backend/policy_vector_pipeline/pipeline.py:66-69 | every character j of the text is character j % step of chunk j / step |
| Chunking.ConsecutiveChunksOverlap | Backend/policy_vector_pipeline/pipeline.py:66-69 | a full chunk ends with the `overlap` characters the next chunk begins with |
| Chunking.DefaultWindows | Backend/policy_vector_pipeline/pipeline.py:63 | with 800 and 100 there are ceil(len / 700) chunks; 1500 characters give 3 |
| Ingestion.JoinPath | Backend/policy_vector_pipeline/pipeline.py:84 | `os.path.join`: an absolute second part replaces the first; otherwise the result is the first part, then one "/" unless the first part is empty or already ends in "/", then the second part |
| Ingestion.FullPath | Backend/policy_vector_pipeline/pipeline.py:83-84 | the file path starts with the backend directory and ends with the document path minus its leading slashes |
| Ingestion.FullPathStartsWithRoot | Backend/policy_vector_pipeline/pipeline.py:83-84 | after the leading slashes are stripped, the joined path starts with the backend directory (as a string; ".." is not resolved); joining an unstripped "/..." path would have discarded the directory |
| Ingestion.ChunkId | Backend/policy_vector_pipeline/pipeline.py:93 | the id is the policy id's text, then "_", then only digits |
| Ingestion.ChunkIds | Backend/policy_vector_pipeline/pipeline.py:93 | one id per chunk, entry i being "{policy_id}_{i}" |
| Ingestion.ChunkMetas | Backend/policy_vector_pipeline/pipeline.py:94-97 | one metadata record per chunk, entry i naming the policy, its owner, the file and chunk i |
| Ingestion.ChunkIdsDistinct | Backend/policy_vector_pipeline/pipeline.py:93 | within one document the chunk ids are pairwise different |
| Ingestion.ChunkIdsRepeatAcrossDocuments | Backend/policy_vector_pipeline/pipeline.py:82-100 | two non-empty documents of one policy both use the id "{policy_id}_0" |
| Ingestion.DocumentBatch | Backend/policy_vector_pipeline/pipeline.py:90-100 | ids, documents and metadatas have the same length |
| Ingestion.DocumentBatchEntries | Backend/policy_vector_pipeline/pipeline.py:90-97 | the documents are the chunks of the extracted text; entry i has id "{policy_id}_{i}" and metadata with chunk i and the policy's owner; the ids are distinct |
| Ingestion.DocumentBatches | Backend/policy_vector_pipeline/pipeline.py:82-100 | at most one batch per document: one per existing file in document order, up to the first batch the collection refuses, which stops the policy |
| Ingestion.MissingFilesAreSkipped | Backend/policy_vector_pipeline/pipeline.py:86-88 | documents whose file does not exist add nothing and cannot stop the policy |
| Ingestion.UnreadableDocumentStopsPolicy | Backend/policy_vector_pipeline/pipeline.py:90-100 | when the collection refuses an empty batch, an existing document from which no text is extracted gives no chunks and stops the policy |
| Ingestion.RunBatches | Backend/policy_vector_pipeline/pipeline.py:191-193 | the run completes at most all fetched policies, all of them exactly when no batch was refused, and fewer otherwise |
| Ingestion.FetchPolicies | Backend/policy_vector_pipeline/db.py:12-36 | for a given id exactly the rows with that id; otherwise, with a watermark, exactly the rows above it; with neither, the whole table; never more rows than the table |
| Ingestion.NextWatermark | Backend/policy_vector_pipeline/pipeline.py:180-193 | the id of the last completed policy, or the old watermark; a run for a given id can only move it to that id, a regular run only forward |
| Ingestion.AboveIsSuffix | Backend/policy_vector_pipeline/db.py:25-31 | on a table ordered by id, the rows above a watermark are a suffix of the table |
| Ingestion.RegularFetchIsSuffix | Backend/policy_vector_pipeline/db.py:21-36 | on a table ordered by id, what a regular run fetches is a suffix of the table |
| Ingestion.CompletedRunReachesTop | Backend/policy_vector_pipeline/pipeline.py:184-193 | a regular run on an ordered table that fetched rows and completed them all leaves the watermark at the table's last id |
| Ingestion.RerunFetchesNothing | Backend/policy_vector_pipeline/pipeline.py:184-193 | after a regular run that found rows and completed, a second regular run over the same table fetches nothing |
| Ingestion.FailedRunIsRetried | Backend/policy_vector_pipeline/pipeline.py:191-193 | a regular run stopped by a refused batch leaves the watermark before the stopped policy, so the next regular run fetches it again |
| Ingestion.SpecificRunCanRewindWatermark | Backend/policy_vector_pipeline/pipeline.py:181-193 | a run for one given id sets the watermark to that id even when it is lower, so the next regular run fetches already-ingested rows again |
| Ingestion.Ingestor.BuildBatch | Backend/policy_vector_pipeline/pipeline.py:90-100 | the batch built for an existing file is `DocumentBatch` of the document |
| Ingestion.Ingestor.IngestPolicy | Backend/policy_vector_pipeline/pipeline.py:74-112 | appends one batch per existing document in document order until the collection refuses one, nothing for a policy without documents; reports whether it got through; leaves the watermark |
| Ingestion.Ingestor.IngestAll | Backend/policy_vector_pipeline/pipeline.py:191-193 | processes the policies in list order, recording each completed policy's id as the watermark; a refused batch ends the run with the watermark at the last completed policy |
| Ingestion.Ingestor.RunIngestion | Backend/policy_vector_pipeline/pipeline.py:180-193 | the watermark becomes `NextWatermark` (the last completed id, or unchanged when nothing was fetched or completed); the collection grows by the batches of the fetched policies in order, up to a refused batch; the result says whether the run completed |
| Retrieval.OptionalIdText | Backend/policy_vector_pipeline/retrieval_api.py:70 | an absent id prints as "None" and only an absent id does; a non-negative id prints as digits |
| Retrieval.Pieces | Backend/policy_vector_pipeline/retrieval_api.py:69-70 | one piece per retrieved chunk, piece i built from chunk i with label i + 1 |
| Retrieval.Piece | Backend/policy_vector_pipeline/retrieval_api.py:70 | a piece starts with its label "[Source idx+1]" and ends with the chunk's text and the "---" line |
| Retrieval.PieceBody | Backend/policy_vector_pipeline/retrieval_api.py:70 | the part after the number starts with "] File: ", the file name or "unknown" when the metadata has none, and the policy field label, and ends with the chunk's text and the "---" line |
| Retrieval.Take | Backend/policy_vector_pipeline/retrieval_api.py:67-74 | the included pieces are a prefix of the candidates, their lengths sum to at most the budget, and the first excluded piece would have overflowed it |
| Retrieval.TakeUnique | Backend/policy_vector_pipeline/retrieval_api.py:69-74 | a prefix that fits the budget and cannot be extended is exactly what is included |
| Retrieval.BuildPrompt | Backend/policy_vector_pipeline/retrieval_api.py:62-77 | the loop with its early exit yields the prompt around exactly the packed prefix |
| Retrieval.Prompt | Backend/policy_vector_pipeline/retrieval_api.py:76 | the prompt starts with the header and "CONTEXT:\n", ends with the closing instruction, and is as long as its five parts |
| Retrieval.Context | Backend/policy_vector_pipeline/retrieval_api.py:75 | the pieces joined with "\n" (in order, by `Text.JoinAppend`) and stripped: no longer than the pieces plus separators, with no whitespace at either end |
| Retrieval.PackedPieces | Backend/policy_vector_pipeline/retrieval_api.py:69-74 | included piece i is the piece of chunk i; the total is within 3000; a piece is left out only if it would overflow, with all later pieces left out too |
| Retrieval.SourceLabelsDistinct | Backend/policy_vector_pipeline/retrieval_api.py:70 | pieces at different positions differ, because their "[Source k]" labels differ |
| Retrieval.PromptLayout | Backend/policy_vector_pipeline/retrieval_api.py:63-76 | the prompt is the header with "CONTEXT:\n", then the context, the "User question: " label, the query verbatim and the closing instruction, at computed positions |
| Retrieval.JoinHasLength | Backend/policy_vector_pipeline/retrieval_api.py:75 | the joined context is as long as its pieces plus one separator between each two |
| Retrieval.ContextWithinBudget | Backend/policy_vector_pipeline/retrieval_api.py:69-75 | the stripped context is at most 3000 characters plus one newline per included piece |
| Retrieval.PrefixSlice | Backend/policy_vector_pipeline/retrieval_api.py:150 | Python's `xs[:k]`: a prefix, everything for no bound, min(k, len) for k >= 0, and len + k (at least 0) for k < 0 |
| Retrieval.Sources | Backend/policy_vector_pipeline/retrieval_api.py:143-151 | at most top_k (when non-negative) and at most as many as retrieved; entry i is numbered i + 1 and copies policy_id, file and chunk of document i |
| Retrieval.QueryEndpoint | Backend/policy_vector_pipeline/retrieval_api.py:93-158 | 400 iff the query is empty or the user id is 0; a failed search gives 500; no documents gives the fixed answer with no sources; a failed model call gives 502; a reply without text gives 500 (`.strip()` raises); otherwise the answer is the stripped model text and the sources are `Sources` of the documents |
| PolicyFilter.Displayed | Frontend/src/components/MyPolicies.jsx:54-61 | no longer than the list, and every displayed policy passes the status filter |
| PolicyFilter.StatusAccepts | Frontend/src/components/MyPolicies.jsx:48-51 | "All" and the exact status accept a policy; a label other than "All" accepts only statuses of its length |
| PolicyFilter.SearchMatches | Frontend/src/components/MyPolicies.jsx:55-60 | the empty term matches every policy; a matching term is no longer than the name, number or company |
| PolicyFilter.DisplayedExactly | Frontend/src/components/MyPolicies.jsx:54-61 | a policy is displayed iff it is in the list, matches the search and passes the status filter; the displayed list is an order-preserving subsequence |
| PolicyFilter.SearchMatchesIffOccurs | Frontend/src/components/MyPolicies.jsx:55-60 | a policy matches iff the lower-cased term occurs in its lower-cased name, number or company |
| PolicyFilter.SearchIgnoresTermCase | Frontend/src/components/MyPolicies.jsx:57-59 | terms that differ only in letter case select the same policies |
| PolicyFilter.StatusFilterIgnoresCase | Frontend/src/components/MyPolicies.jsx:48-51 | a label other than "All" accepts a policy iff its status equals the label ignoring case, so labels differing only in case agree |
| PolicyFilter.EmptySearchShowsAll | Frontend/src/components/MyPolicies.jsx:48-60 | with an empty term and the "All" tab the whole list is displayed, in order |
| PolicyFilter.Counts | Frontend/src/components/MyPolicies.jsx:64-70 | allCount is the list's length and activeCount + expiredCount <= allCount |
| PolicyFilter.CountsSingle | Frontend/src/components/MyPolicies.jsx:64-70 | one policy counts once in allCount, once in activeCount iff its status lower-cased is "active", and once in expiredCount iff it is "expired" |
| PolicyFilter.CountsAppend | Frontend/src/components/MyPolicies.jsx:64-70 | the three counts of two lists together are the sums of their counts |
| PolicyFilter.StoredPoliciesAreNeverExpired | Frontend/src/components/MyPolicies.jsx:68-70 | for policies the store admits, expiredCount is 0 |
| Text.ToLower | Frontend/src/components/MyPolicies.jsx:50 | same length, every character lower-cased |
| Text.ToLowerIdempotent | Frontend/src/components/MyPolicies.jsx:50 | lower-casing twice is lower-casing once |
| Text.IncludesIffOccurs | Frontend/src/components/MyPolicies.jsx:57-59 | `includes` is true iff the needle occurs at some position |
| Text.Includes | Frontend/src/components/MyPolicies.jsx:57-59 | the empty needle is always found; a found needle is no longer than the string |
| Text.IncludesEmpty | Frontend/src/components/MyPolicies.jsx:57-59 | every string includes the empty string |
| Text.NatToString | Backend/policy_vector_pipeline/pipeline.py:93 | a non-empty string of digits, one digit iff the number is below 10 |
| Text.NatToStringInjective | Backend/policy_vector_pipeline/pipeline.py:93 | different numbers print differently |
| Text.IntToString | Backend/policy_vector_pipeline/pipeline.py:93 | non-empty, starting with "-" iff the number is negative, and digits everywhere else |
| Text.TrimStart | Backend/policy_vector_pipeline/retrieval_api.py:75 | the longest suffix not starting with whitespace; only whitespace is removed |
| Text.TrimEnd | Backend/policy_vector_pipeline/retrieval_api.py:75 | the longest prefix not ending with whitespace; only whitespace is removed |
| Text.Strip | Backend/policy_vector_pipeline/retrieval_api.py:75 | no longer than the input, and no whitespace at either end |
| Text.StripIsInfix | Backend/policy_vector_pipeline/retrieval_api.py:155 | the stripped string is a contiguous infix of the original |
| Text.StripRemovesOnlyWhitespace | Backend/policy_vector_pipeline/retrieval_api.py:155 | only whitespace lies before and after the stripped infix |
| Text.StripEdges | Backend/policy_vector_pipeline/retrieval_api.py:155 | the stripped string neither starts nor ends with whitespace |
| Text.LeadingCount | Backend/policy_vector_pipeline/pipeline.py:83 | the length of the run of `c` at the start of the string |
| Text.TrimStartChar | Backend/policy_vector_pipeline/pipeline.py:83 | a suffix of the input such that everything removed is `c` and the result does not start with `c` |
| Text.Join | Backend/policy_vector_pipeline/retrieval_api.py:75 | starts with the first part, and is at least as long as each part |
| Text.JoinAppend | Backend/policy_vector_pipeline/retrieval_api.py:75 | joining one part gives that part; joining two non-empty lists is the first join, the separator, then the second join |
| Seqs.Filter | Backend/controllers/policyController.js:105 | no longer than the input, and every kept element is accepted |
| Seqs.FilterKeepsAccepted | Backend/policy_vector_pipeline/db.py:21-36 | every accepted element of the input is kept |
| Seqs.FilterMembership | Backend/controllers/policyController.js:110-112 | an element is kept iff it is in the input and accepted |
| Seqs.FilterIsSubsequence | Backend/controllers/policyController.js:110-112 | a filter keeps the input order |
| Seqs.FilterAppend | Backend/controllers/policyController.js:105-112 | filtering distributes over concatenation |
| Seqs.FilterTwice | Frontend/src/components/MyPolicies.jsx:54-61 | two filters in a row equal one filter accepting what both accept |
| Seqs.FilterKeepsAll | Frontend/src/components/MyPolicies.jsx:55-60 | a filter accepting every element returns the input |
| Seqs.Count | Frontend/src/components/MyPolicies.jsx:65-70 | `filter(f).length` is at most the input's length |
| Seqs.CountSingle | Backend/controllers/policyController.js:105 | one element counts 1 iff accepted, else 0 |
| Seqs.CountAppend | Frontend/src/components/MyPolicies.jsx:65-70 | counts add up over concatenation |
| Seqs.CountDisjoint | Frontend/src/components/MyPolicies.jsx:64-70 | two filters never accepting the same element count at most the input's length together |
| Seqs.Sum | Backend/controllers/policyController.js:106-109 | a sum of non-negative terms is non-negative and a sum of zero terms is zero |
| Seqs.SumSnoc | Backend/controllers/policyController.js:106-109 | `reduce` from 0 adds the elements left to right: appending x adds g(x) |
| Seqs.SumAppend | Backend/controllers/policyController.js:106-109 | a reduce-sum distributes over concatenation |
| Seqs.SumPermutation | Backend/controllers/policyController.js:106-109 | a reduce-sum does not depend on the order of the elements |
| Seqs.CountPermutation | Backend/controllers/policyController.js:105 | a filter's length does not depend on the order of the elements |

## Left out

- HTTP routing, the authentication middleware, the React pages and the axios client: only the controller logic and the filter at `MyPolicies.jsx:47-70` are modelled. The caller's id is a parameter.
- The upload middleware: the five-file cap and the `Date.now()-originalname` naming are not modelled. Uploaded file names arrive as a parameter. `AddPolicy` only records their paths and never reads or changes the upload directory, so it does not matter whether they exist.
- Sequelize, PostgreSQL and psycopg2: the table is a map, and `fetch_policies` and `fetch_policies_by_id` are filters over an id-ordered list of rows. Database errors other than the enum refusal are not modelled.
- Real file-system errors: an `unlinkSync` that throws midway through a delete is not modelled. Files are a set of paths that exist. `path.join(process.cwd(), p)` in the delete and `os.path.join` with the backend directory in the pipeline are both taken to address the same upload directory.
- bcrypt and jsonwebtoken are symbolic. A hash records its salt and password, so `Compare` is exact and cannot collide. A token is its payload and expiry, with no signature or secret. The random part of the salt is a parameter.
- Auth.RegisterThenLogin: proves that any password other than the registered one fails. Real bcrypt reads only the first 72 bytes of a password, so this holds for bcrypt only when the two passwords differ within their first 72 bytes.
- Clocks: `now` is a parameter in milliseconds (dashboard, creation time) or seconds (tokens).
- Auth.UserTable.Register: it does not model the 500 response for a database failure or a race between two registrations of one email.
- Floating point: `premiumAmount` and `coverageAmount` are `FLOAT` columns, modelled as integers with no IEEE rounding. A NULL amount counts as 0, as `Number(null)` does.
- Dates are integer milliseconds. A NULL end date reads as the epoch, as `new Date(null)` does.
- Text.ToLower: it does not model Unicode case mapping; only ASCII letters are lower-cased.
- Text.TrimStart: it does not model Unicode whitespace; only the ASCII characters Python's `isspace` accepts are treated as whitespace (also in TrimEnd and Strip).
- PDF extraction, SentenceTransformer embeddings, Chroma and the Gemini client are function parameters. They cover `extract_text_from_pdf` (which yields "" on failure), the vector search (which yields `None` when it raises), the model call (which yields `None` when it raises, and a reply whose text may be absent) and `collection.add` (a predicate saying whether the collection takes a batch; a refusal is an `add` that raises). Which batches the collection refuses is library behaviour: the model admits any rule. `Ingestion.UnreadableDocumentStopsPolicy` shows the consequence for a collection that refuses empty id lists. The search's own handling of `n_results` and the `where` filter belongs to it.
- The `ingest_policy` body appears three times in the source, so each document is handed to the collection three times with the same ids. What the collection does with repeated ids is library behaviour, so the model performs a single pass. The embedding and debug printing in the first two copies are left out.
- The watermark file's I/O (`get_last_ingested`, `set_last_ingested`) is the `watermark` field. The command-line parsing of the specific policy id is a parameter.
- `dump_chroma_to_json` and `dump_chroma_to_csv` are file output over an external paged collection and are not part of this model.
- The `/query` endpoint's debug call to `collection.get` and its logging are not modelled. The raw model response is an opaque string, and `None` stands for the empty object `{}`.
- The `MAX_PROMPT_CHARS`, `TOP_K`, `CHROMA_DIR` and model-name environment overrides: the defaults (3000, 3) are used.
- Chunking.ChunkText: chunk sizes are natural numbers. A negative `chunk_size` is not modelled.
- `chatbotController.js` echoes the query into a fixed string and is not part of this model.
