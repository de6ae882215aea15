# lazys3 in Dafny

A model of the scanning logic of lazys3, a tool that guesses the names of
Amazon S3 buckets. The tool builds candidate bucket names from a seed and a
word list. It fetches each candidate's listing page from a fixed regional S3
endpoint, retrying failed requests on a fixed schedule. It then classifies the
XML reply and reports what it found, following permanent redirects to other
endpoints.

The project has one module per piece of that logic:

- `Wordlist` (wordlist.dfy): the candidate generator. It has three permutation
  strategies (raw seed; seed × word × environment tag × five join formats;
  seed × word × three join styles × two orders) and the final de-duplication
  that keeps first occurrences. The two strategies that the source builds
  with nested loops are methods with nested loops. Each is proved equal to a
  recursive specification function. The de-duplication (`Uniq`) and the
  generator's result (`Candidates`) are functions. Lemmas give the exact
  counts, the order and the exact membership of the result. Membership is
  stated against literal reference joins (`EnvJoins`, `HostJoins`), written
  independently of the format tables that the loops use.
- `Uri` (uri.dfy): the bracket escaping done before any URL is parsed.
  `[` becomes `%5B`, then `]` becomes `%5D`. It is modelled as two
  `gsub` passes and proved equal to a single-pass, per-character escape.
- `Pages` (pages.dfy): `get_page`'s retry loop. The HTTP request is a
  parameter `net: nat -> Attempt`: the result of the k-th request, one of
  `Answered(body)`, `TimedOut` or `Failed`. The method returns the body,
  the number of requests made, the delays slept and the notices written.
- `Results` (results.dfy): `parse_results`. A parsed reply is a `Document`
  with an optional `ListBucketResult` flag and an optional `Error` element
  (optional `Code` text, optional `Endpoint` text). What the function reports
  is a sequence of `Line`s, each a depth and a `Message`. The network seen
  while following a redirect is a map from get_page's host argument to the
  parsed reply; a missing URL means an empty body. A `fuel` parameter bounds
  the redirect recursion.
- `Regions` (regions.dfy): the region-code table and the default region.
- `Options` (options.dfy): an `Option` datatype.

## Model

| member | source | states |
|---|---|---|
| `Wordlist.Uniq` | lazys3.rb:130 | `uniq`'s result has no repeated name, holds exactly the names of its input, is no longer than it, and starts with the input's first name |
| `Wordlist.UniqOfDistinct` | lazys3.rb:130 | a list without repetitions comes out of `uniq` unchanged |
| `Wordlist.UniqPrefix` | lazys3.rb:126-130 | de-duplicating a longer list keeps the de-duplicated shorter list as a prefix, so names that come earlier keep their places |
| `Wordlist.Format3` | lazys3.rb:145-146 | a three-part format puts the seed first and the environment tag last, with the two separators and the word between them adding exactly their lengths; with both separators empty the parts are simply concatenated. `EnvFormatAgrees` gives each table entry's exact name |
| `Wordlist.Format2` | lazys3.rb:156-158 | a two-part format puts its first argument first and its second last, with the separator between them adding exactly its length; with the empty separator the two are simply concatenated. `HostFormatAgrees` gives each table entry's exact pair of names |
| `Wordlist.EnvFormatAgrees` | lazys3.rb:145-146 | the k-th environment format gives the k-th of `seed-w-e`, `seed-w.e`, `seed-we`, `seed.w-e`, `seed.w.e` |
| `Wordlist.HostFormatAgrees` | lazys3.rb:156-158 | the k-th host format gives `seed<j>w` and then `w<j>seed` for join j in `.`, `-`, empty |
| `Wordlist.AppendEnvRows` | lazys3.rb:143-149 | the inner environment/format loops for one word append exactly that word's 8 × 5 environment joins, in order |
| `Wordlist.PermutationEnvs` | lazys3.rb:141-151 | the nested word/environment/format loops produce exactly the environment specification, 5 × 8 names per word |
| `Wordlist.PermutationHost` | lazys3.rb:153-162 | the nested word/format loops produce exactly the host specification, 3 × 2 names per word |
| `Wordlist.EnvPermutationsLength` | lazys3.rb:141-151 | the environment strategy yields exactly 40 names per word |
| `Wordlist.HostPermutationsLength` | lazys3.rb:153-162 | the host strategy yields exactly 6 names per word |
| `Wordlist.EnvPermutationsMembers` | lazys3.rb:141-151 | a name comes from the environment strategy iff it is one of the five joins of the seed with some listed word and some environment tag |
| `Wordlist.HostPermutationsMembers` | lazys3.rb:153-162 | a name comes from the host strategy iff it is one of the six joins of the seed with some listed word |
| `Wordlist.AllPermutationsLength` | lazys3.rb:121-161 | before de-duplication the strategies yield exactly 1 + 46·N names for N words |
| `Wordlist.Candidates` | lazys3.rb:125-131 | the generator's result starts with the seed and has it nowhere else, repeats no name, and has at most 1 + 46·N names for N words. `CandidatesMembers` states its exact contents |
| `Wordlist.Generate` | lazys3.rb:125-131 | the generator returns the de-duplicated strategies; the seed is first and nowhere else; no name repeats; at most 1 + 46·N names |
| `Wordlist.CandidatesMembers` | lazys3.rb:125-161 | a name is generated iff it is the seed, or one of `seed-w-e`, `seed-w.e`, `seed-we`, `seed.w-e`, `seed.w.e`, or one of `seed.w`, `w.seed`, `seed-w`, `w-seed`, `seedw`, `wseed`, for a listed word w and an environment tag e |
| `Wordlist.CandidatesStartWithSeedAndEnvs` | lazys3.rb:122-131 | the result starts with the seed, followed by the de-duplicated environment names in strategy order |
| `Wordlist.EnvJoinGenerated` | lazys3.rb:141-151 | every environment join of a listed word and a listed tag is generated |
| `Wordlist.HostJoinGenerated` | lazys3.rb:153-162 | every host join of a listed word is generated |
| `Wordlist.ExampleDashedEnvCandidate` | lazys3.rb:141-151 | for seed `example` and word `test`, the name `example-test-dev` is generated |
| `Wordlist.ExampleDottedEnvCandidate` | lazys3.rb:141-151 | for seed `example` and word `test`, the name `example.test.production` is generated |
| `Wordlist.ExampleHostCandidates` | lazys3.rb:153-162 | for seed `example` and word `test`, the names `test.example` and `exampletest` are generated |
| `Uri.Gsub` | lazys3.rb:75 | replacing a character c by a string rep yields only characters other than c from the input and characters of rep, so no c is left when rep holds none; a string without c is unchanged |
| `Uri.GsubLength` | lazys3.rb:75 | replacing c by a three-character string grows the length by 2 per occurrence of c |
| `Uri.GsubCountOther` | lazys3.rb:75 | replacing c leaves the number of occurrences of any other character d unchanged when rep holds no d, so the first pass does not change the number of `]` |
| `Uri.ParseWithSafety` | lazys3.rb:74-76 | the string handed to the parser contains neither `[` nor `]`, and a string without brackets is handed on unchanged |
| `Uri.EscapedLength` | lazys3.rb:74-76 | escaping grows the length by exactly 2 per bracket |
| `Uri.Idempotent` | lazys3.rb:74-76 | escaping an escaped string changes nothing |
| `Uri.AgreesWithSinglePass` | lazys3.rb:75 | the two `gsub` passes equal a single pass that maps `[` to `%5B`, `]` to `%5D` and every other character to itself |
| `Uri.EscapeEachAppend` | lazys3.rb:75 | escaping works character by character over concatenation, so the other characters keep their order |
| `Regions.Host` | lazys3.rb:303-318 | exactly the codes `ie`, `nc`, `us`, `si`, `to` have a base URL, each an `http://` URL; any other code is the usage-and-exit case |
| `Regions.DefaultHost` | lazys3.rb:271 | the default region `us` selects `http://s3.amazonaws.com` |
| `Regions.HostInjective` | lazys3.rb:303-313 | no two region codes share a base URL |
| `Pages.GetPage` | lazys3.rb:189-211 | at most 1 + 5 requests are made. Every request before the last one failed with a non-timeout error. The last one is a timeout, an answer, or the sixth failure. The body is the answer's body, or empty on a timeout or when the schedule is spent. The delays slept are the schedule's first (requests − 1) entries. A retry notice is written for every error, then a timeout notice or a give-up notice |
| `Results.Text` | lazys3.rb:219-255 | every reported text is non-empty and does not start with a tab |
| `Results.Indent` | lazys3.rb:214-217 | the indentation built in the loop is exactly `depth` tab characters |
| `Results.RenderIndent` | lazys3.rb:214-217 | every written line starts with exactly `depth` tabs, followed by a character that is not a tab |
| `Results.Report` | lazys3.rb:219-255 | a `ListBucketResult` reports a found bucket with bucket and host; "No data returned" exactly when there is neither element; nothing exactly when there is an `Error` without a `Code` or with a code other than `NoSuchKey`, `AccessDenied`, `NoSuchBucket` and `PermanentRedirect` |
| `Results.RedirectTarget` | lazys3.rb:236-238 | a reply that names a redirect endpoint is reported as redirecting to that endpoint's text |
| `Results.ParseResults` | lazys3.rb:213-256 | the i-th reported line is at depth `depth + i`. At most fuel + 1 lines are reported. Nothing is reported iff the reply itself reports nothing. The first line is the reply's own report. Every line but the last is a redirect. Every line except "No data returned" names the bucket being probed |
| `Results.FoundWins` | lazys3.rb:219-221 | a reply with `ListBucketResult` reports only "Bucket Found" with bucket and host, even when it also has an `Error` |
| `Results.EmptyReplyIsNoData` | lazys3.rb:252-254 | a reply with neither element reports "No data returned" |
| `Results.ErrorCodes` | lazys3.rb:226-235 | `AccessDenied` reports access denied, `NoSuchKey` reports a missing key, `NoSuchBucket` reports to the log only; each gives one line and follows nothing |
| `Results.UnknownErrorSilent` | lazys3.rb:223-251 | an `Error` without `Code`, or with any other code, reports nothing |
| `Results.RedirectWithoutEndpoint` | lazys3.rb:246-249 | a PermanentRedirect without `Endpoint` reports "can't find where to" and follows nothing |
| `Results.RedirectWithEndpoint` | lazys3.rb:236-245 | a PermanentRedirect with `Endpoint` e reports e. It then fetches `http://` + e; if that body is non-empty, it continues at depth + 1 with e as host, and otherwise stops |
| `Results.FuelPrefix` | lazys3.rb:241-245 | a smaller redirect bound only truncates the report, to a prefix |
| `Results.FuelSuffices` | lazys3.rb:241-245 | once the report is shorter than the redirect bound, any larger bound gives the same report, so the bound only matters for chains of redirects at least as long as itself |
| `Results.SelfRedirectNeverStops` | lazys3.rb:241-245 | an endpoint that redirects to itself gives one more line for every further redirect allowed: the follower itself never stops |

## Left out

- The scanner class (lazys3.rb:83-118): the thread pool of 50 workers, the shared job queue, the probe of the bare seed and the per-candidate `domain + name` path. Concurrency is not modelled. In the source, `jobs` is only created when the seed probe returned data (lazys3.rb:96-99), so the scan fails otherwise; this is not modelled either.
- `Net::HTTP` and `REXML::Document` are library calls. Each request is replaced by an `Attempt` value and each parsed reply by a `Document`. A reply the XML parser rejects raises in the source and is not modelled.
- `Results.ParseResults`: `fuel` bounds the number of redirects followed. The source has no such bound and recurses as long as the endpoints keep redirecting. `FuelPrefix`, `FuelSuffices` and `SelfRedirectNeverStops` state what the bound cuts off: a prefix of the report, nothing at all when the report is shorter than the bound, and a cycle of redirects that the source would follow forever.
- `Results.Document`: an `Endpoint` element with no text would raise in the source when its text is printed. The model treats endpoint text as always present.
- `Pages.GetPage`: `sleep` is modelled only as the list of delays consumed, not as elapsed time. The error text of an exception and the host name inside the notices are not modelled.
- Console printing and log writes through `@logging` are modelled as `Line` and `Notice` values. `OnConsole` says which lines reach the console. Writing to the terminal and the log file is not modelled.
- The ANSI colour methods on `String` (lazys3.rb:43-67) are presentation only and are not modelled.
- Command-line parsing, `usage`, opening the log file, `from_file` with its file read, the choice of the generator's seed in the main program (lazys3.rb:326) and the timing printout (lazys3.rb:133-135, 167-187, 258-301, 320-337) are I/O and process exit.
- The `download` flag is passed to `parse_results` but never used there, so it is not a parameter of the model.
- The standard URI parser that `parse_with_safety` hands its string to is not modelled; `Uri.ParseWithSafety` stops at the escaped string.
- In the source, `permutation_raw` returns the seed as a bare string, which `flatten` turns into a single entry. The model puts the one-element list `[seed]` directly into `AllPermutations`.
- Unknown error codes: the source reports nothing, and so does the model (`UnknownErrorSilent`). Malformed XML: the source raises, and this is not modelled.
- `Results.ParseResults`: the retry, timeout and give-up notices that `get_page` itself writes while a redirect is being followed (lazys3.rb:241) are not part of the reported lines; `Pages.GetPage` models them on their own.
- `Results.Net`: the map gives one fixed reply per URL, so the same endpoint fetched twice answers the same both times; a network that answers differently over time is not modelled.
- `Pages.GetPage`: `URI.parse(host)` (lazys3.rb:190) runs before the `begin` block, so an unparsable host raises outside the retry loop. The model starts at the first request and does not model that exception.
