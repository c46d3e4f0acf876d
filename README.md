# OCI A1 auto-claim, modelled in Dafny

`oci_a1_autoclaim.py` tries to get an Always Free ARM (A1 Flex) instance on
Oracle Cloud. It keeps trying until a launch succeeds.

- It reads its settings from the environment: the compartment, the subnet, an
  optional image, the instance name prefix, the sleep time, the availability
  domains (ADS) and the OCPU counts (OCPUS).
- It refuses to start without the compartment, the subnet or the SSH key file.
- It picks an Ubuntu 22.04 ARM image, falling back to 24.04, unless an image is
  given.
- It orders the domains: the configured ones the provider really has, else the
  provider's own, else the configured list.
- It then tries every domain × OCPU candidate in a fixed order, pass after pass.
  Every failed attempt sleeps once and every full pass sleeps once more.
- The first successful launch writes the instance id and public IP to the
  success record and ends the script.

The model is split into these modules:

- `Options`: an optional value.
- `Text`: the Python string operations the script relies on (`strip`, `split`,
  `lower`, `isdigit`, `int`, `str`, substring tests).
- `Settings`: parsing `ADS` and `OCPUS`.
- `Domains`: the sorted domain listing and the visiting order.
- `Images`: the image choice.
- `Launch`: the display name, the classification of launch failures, and one
  `try_launch`.
- `Scheduler`: the candidates, the events a run records, and the retry loop as
  a method proved against a specification.
- `Runs`: what a whole run does, read off that specification.
- `AutoClaim`: `main`.

The model does not call the provider's SDK. Each launch request is decided by
a `LaunchOutcome` value per attempt number and candidate, and the image and
domain listings are given as values. Notifications, sleeps and the success
record are recorded as `Event`s. The endless `while True` loop is followed for
a given number of passes.

The script does not discover subnets, does not switch regions and never
gives up on an error: every failure, whatever its kind, is retried in the
same region with the configured subnet.

## Model

| member | source | states |
|---|---|---|
| Text.Strip | oci_a1_autoclaim.py:25 | the result has no surrounding whitespace, keeps only characters of the input, and is empty exactly when the input is all whitespace |
| Text.StripSlice | oci_a1_autoclaim.py:31 | `strip` leaves one slice of the input, and only whitespace lies before and after it |
| Text.StripStripped | oci_a1_autoclaim.py:31 | stripping text that is already stripped changes nothing |
| Text.Split | oci_a1_autoclaim.py:31-32 | `split(",")` gives at least one piece, and no piece holds the separator |
| Text.JoinSplit | oci_a1_autoclaim.py:31-32 | joining the pieces of a split with the separator gives back the original text |
| Text.SplitJoin | oci_a1_autoclaim.py:31-32 | splitting a join of separator-free pieces gives back the pieces |
| Text.Lower | oci_a1_autoclaim.py:85 | no ASCII capital is left: each becomes its lower-case letter and every other character is kept |
| Text.ContainsLower | oci_a1_autoclaim.py:85-86 | searching the lower-cased text for a lower-case word finds it exactly when the word occurs in the original text, ignoring ASCII case |
| Text.NatToStringValue | oci_a1_autoclaim.py:32 | the decimal text of a count reads back as that count |
| Text.IntToStringValue | oci_a1_autoclaim.py:111 | the text `str()` gives for any integer, including a negative one, reads back as that integer |
| Settings.AdEntries | oci_a1_autoclaim.py:31 | every kept domain entry is non-empty and stripped, and free of commas when the pieces are |
| Settings.AdEntriesOne | oci_a1_autoclaim.py:31 | one piece gives its stripped text, or nothing when that is empty |
| Settings.AdEntriesAppend | oci_a1_autoclaim.py:31 | entries are kept piece by piece, in order: the entries of two runs of pieces are those of the first, then those of the second |
| Settings.ParseAdsConcat | oci_a1_autoclaim.py:31 | `ParseAds`: two settings written one after the other, comma-separated, give the domains of the first, then those of the second, order and repeats kept |
| Settings.ParseAdsMembers | oci_a1_autoclaim.py:31 | a name is in `ADS` exactly when it is the non-empty strip of one of the comma-separated pieces |
| Settings.AdsRoundTrip | oci_a1_autoclaim.py:31 | a list of clean names written comma-separated parses back to the same list, in order |
| Settings.DefaultAdsList | oci_a1_autoclaim.py:31 | with `ADS` unset the domains are AD-1, AD-2, AD-3 |
| Settings.OcpuEntriesOne | oci_a1_autoclaim.py:32 | one piece gives its value when its stripped text is all ASCII digits, and nothing otherwise; digits padded with U+001C–U+001F, on which `int()` raises, are read too (see Left out) |
| Settings.OcpuEntriesAppend | oci_a1_autoclaim.py:32 | `OcpuEntries` reads counts piece by piece, in order: those of two runs of pieces are those of the first, then those of the second |
| Settings.ParseOcpusConcat | oci_a1_autoclaim.py:32 | `ParseOcpus`: two settings written one after the other, comma-separated, give the counts of the first, then those of the second, order and repeats kept |
| Settings.ParseOcpusMembers | oci_a1_autoclaim.py:32 | a count is in `OCPUS` exactly when some piece, stripped, is all ASCII digits with that value |
| Settings.OcpusRoundTrip | oci_a1_autoclaim.py:32 | any list of counts written comma-separated parses back to the same list, in order |
| Settings.DefaultOcpusList | oci_a1_autoclaim.py:32 | with `OCPUS` unset the counts are 4, 2, 1 |
| Domains.LexLeTotal | oci_a1_autoclaim.py:69 | Python's string order is total |
| Domains.SortNames | oci_a1_autoclaim.py:69 | `sorted` gives the same names (as a multiset), in ascending order |
| Domains.ListAvailabilityDomains | oci_a1_autoclaim.py:66-71 | a successful listing gives the provider's names sorted and as a permutation; a listing that raised gives the configured list unchanged |
| Domains.KeepReal | oci_a1_autoclaim.py:178 | the configured names the provider has, in configured order: a subsequence holding exactly the names in both lists, each real one as often as it is configured |
| Domains.AdOrder | oci_a1_autoclaim.py:178 | the visiting order only holds configured or real names; it is the real configured names in configured order, each as often as configured, when there are any, else the real list when non-empty, else the configured list |
| Images.MatchesIgnoringCase | oci_a1_autoclaim.py:85-86 | an image matches exactly when the version and "aarch64" or "arm" occur in its display name, ignoring ASCII case |
| Images.FirstMatch | oci_a1_autoclaim.py:83-88 | absent exactly when no image matches the version and "aarch64"/"arm"; otherwise the id of the first matching image |
| Images.FirstMatchAt | oci_a1_autoclaim.py:83-88 | the first match is the unique image that matches before all others |
| Images.Pick | oci_a1_autoclaim.py:83-88 | the scanning loop returns the first match |
| Images.PickLatestUbuntuArmImage | oci_a1_autoclaim.py:73-90 | the result is the 22.04 match when that is a non-empty id, otherwise the 24.04 match |
| Images.PrimaryWins | oci_a1_autoclaim.py:90 | `PreferredImage`: the first ARM 22.04 image with a non-empty id is chosen over any 24.04 image |
| Images.SecondaryFallback | oci_a1_autoclaim.py:90 | with no ARM 22.04 image, the first ARM 24.04 image is chosen |
| Images.EmptyPrimaryIdFallsThrough | oci_a1_autoclaim.py:90 | a 22.04 match with an empty id is falsy, so 24.04 is tried |
| Images.PreferredImageMatches | oci_a1_autoclaim.py:83-90 | a chosen image is a listed image that matches one of the two versions; with no match at all nothing is chosen |
| Images.ResolveImage | oci_a1_autoclaim.py:25 | a non-empty stripped `IMAGE_OCID` is used as given; otherwise any image found is a listed matching one |
| Images.ResolveImageChoice | oci_a1_autoclaim.py:180 | the image is the non-empty stripped override when there is one, and otherwise exactly the preferred listed image, absent included |
| Images.ExampleListing | oci_a1_autoclaim.py:73-90 | on a newest-first listing a 22.04 ARM build wins over a newer 24.04 one listed before it |
| Launch.DisplayName | oci_a1_autoclaim.py:111 | the name is absent (Python raises `IndexError`) exactly when the domain name is empty |
| Launch.ParseAssembled | oci_a1_autoclaim.py:111 | a display name assembled from the prefix, a domain character, digit text and integer text is read back into exactly those parts |
| Launch.DisplayNameRoundTrip | oci_a1_autoclaim.py:111 | the display name carries the last character of the domain, the OCPU count and the memory, which can be read back from it |
| Launch.Classify | oci_a1_autoclaim.py:153-159 | the verdict is "CAPACITY" exactly for a provider error whose message mentions a capacity word; other provider errors start with "API:"; any other exception gives "EX:" then the type name and the text |
| Launch.MentionsCapacityIgnoringCase | oci_a1_autoclaim.py:154-155 | `MentionsCapacity`: a message mentions capacity exactly when one of the four words occurs in it, ignoring ASCII case; an absent message mentions nothing |
| Launch.CapacityKeywordsReduce | oci_a1_autoclaim.py:155 | the four capacity words match exactly the messages that contain "capacity" or "insufficient" |
| Launch.TryLaunch | oci_a1_autoclaim.py:92-159 | an attempt launches exactly when the domain name is non-empty, the instance ran and it has a VNIC attachment, and it returns that instance and the first VNIC's address; it escapes as a non-`RuntimeError` exactly when the key file is unreadable or the domain name is empty; it reports "CAPACITY" exactly for a provider capacity error |
| Scheduler.Candidates | oci_a1_autoclaim.py:187-189 | one candidate per domain and OCPU count |
| Scheduler.CandidatesAt | oci_a1_autoclaim.py:187-189 | candidate `i·|ocpus| + j` is domain `i` with OCPU count `j` and its memory |
| Scheduler.CandidatesPrefix | oci_a1_autoclaim.py:187-189 | the candidates of the first domains start the sequence of all candidates |
| Scheduler.SuccessRecordLines | oci_a1_autoclaim.py:195-196 | the success record is two lines, the instance id then the address |
| Scheduler.AttemptCounts | oci_a1_autoclaim.py:190-207 | an attempt records one numbered `Trying` notice; a success writes the record once, as its last event, and does not sleep; a failure sleeps once and writes nothing |
| Scheduler.StepCounts | oci_a1_autoclaim.py:190-207 | a step numbers its attempt next, claims exactly when that attempt succeeds, and then ends on the record |
| Scheduler.PassClaimSticks | oci_a1_autoclaim.py:197 | after a success in a pass, no later candidate is tried |
| Scheduler.RunClaimSticks | oci_a1_autoclaim.py:197 | after a claim, no later pass changes anything |
| Scheduler.RunAttempt | oci_a1_autoclaim.py:189-207 | one iteration of the inner loop records exactly the events of the attempt specification and returns the outcome of `try_launch` |
| Scheduler.TryDomain | oci_a1_autoclaim.py:188-207 | the inner loop over OCPU counts for one domain extends the pass specification by that domain's candidates when nothing succeeds, and when an attempt succeeds it returns, leaving the outcome of the whole pass |
| Scheduler.RetryLoop | oci_a1_autoclaim.py:185-209 | the nested loops produce exactly the events, attempt count and claim of the run specification `RunSpec` (passes of `PassSpec`) for the given number of passes |
| Runs.RepeatLength | oci_a1_autoclaim.py:186 | `q` passes hold `q` times as many candidates as one |
| Runs.PassLength | oci_a1_autoclaim.py:187-207 | a pass tries a prefix of the candidates; it tries them all unless it succeeds |
| Runs.PassTrace | oci_a1_autoclaim.py:187-192 | the attempts of a pass are its candidates in order, numbered on from the counter |
| Runs.PassFailures | oci_a1_autoclaim.py:192-207 | every attempt of a pass before the last failed, and the last did too when the pass did not claim |
| Runs.PassClaim | oci_a1_autoclaim.py:192-197 | a pass that claims ended on a successful attempt whose result is the claim, with the record as the last event |
| Runs.PassCounts | oci_a1_autoclaim.py:192-207 | a pass writes the record once if it succeeds and never otherwise, and sleeps once per failed attempt |
| Runs.RunLength | oci_a1_autoclaim.py:186-209 | a run makes at most one attempt per candidate of each pass, and exactly that many without a claim |
| Runs.RunStepCounts | oci_a1_autoclaim.py:209 | a pass of the run ends where the pass ends, with one more sleep when it did not succeed |
| Runs.RunTrace | oci_a1_autoclaim.py:186-192 | a run's attempts are the candidates of its passes in order, numbered 1, 2, 3, ... |
| Runs.RunFailures | oci_a1_autoclaim.py:186-207 | every attempt of a run before the last failed, and the last did too without a claim |
| Runs.RunClaim | oci_a1_autoclaim.py:192-197 | a run that claims ended on a successful attempt whose result is the claim, with the record as the last event |
| Runs.RunAttemptCount | oci_a1_autoclaim.py:190-191 | a run records one `Trying` notice per attempt |
| Runs.RunClaimRecord | oci_a1_autoclaim.py:192-197 | a run that claims made its last attempt with `try_launch` returning the claim, and wrote the record once, as the last event |
| Runs.RunWrites | oci_a1_autoclaim.py:195-197 | a run writes the record once if it claims and never otherwise |
| Runs.RunSleeps | oci_a1_autoclaim.py:198-209 | a run without a claim sleeps once after every attempt and once after every pass |
| Runs.RunSleepsClaimed | oci_a1_autoclaim.py:198-209 | a run that claims in pass `q + 1` slept after each attempt but the last and after each of the `q` passes before it |
| Runs.FirstSuccessEndsRun | oci_a1_autoclaim.py:192-197 | the first successful attempt ends the run, and its result is the claim |
| Runs.FailuresNeverEndRun | oci_a1_autoclaim.py:186-209 | when every attempt fails, the run tries all `passes · |cands|` candidates, sleeps `passes · |cands| + passes` times, and claims and writes nothing |
| AutoClaim.Missing | oci_a1_autoclaim.py:162-164 | each required setting is named exactly when it is unset or empty, at most once, the compartment before the subnet |
| AutoClaim.Run | oci_a1_autoclaim.py:161-209 | `main` ends and records exactly what the script specification `Script` says, for the given number of passes |
| AutoClaim.ChecksComeFirst | oci_a1_autoclaim.py:161-183 | missing settings, then a missing key file, then no usable image stop the script, each exactly under its condition and before any attempt, sleep or record |
| AutoClaim.LoopNeedsChecks | oci_a1_autoclaim.py:161-183 | the script reaches its loop only when both settings are set, the key file exists and an image was found |
| AutoClaim.LoopEvents | oci_a1_autoclaim.py:175-209 | past the checks, the start notice comes first and the run's attempts, sleeps, writes and claim are the loop's |
| AutoClaim.ScriptTrace | oci_a1_autoclaim.py:177-192 | the script's attempts are the candidates of its passes in visiting order, numbered from 1; without a claim, all of them |
| AutoClaim.ScriptClaim | oci_a1_autoclaim.py:192-197 | a claim is the result of the last attempt, which succeeded, and the record is written once, as the last event |
| AutoClaim.ScriptUnclaimed | oci_a1_autoclaim.py:198-209 | without a claim nothing is written, and the script slept once per attempt and once per pass |
| AutoClaim.FirstSuccessClaims | oci_a1_autoclaim.py:186-197 | if attempt `n` is the first to succeed, the script claims that instance after exactly `n` attempts |

## Left out

- Notifications are recorded as `Notice` values by content. The printed text, the Telegram request and its failures are not modelled.
- `get_clients` (reading the OCI config file and profile) and `.env` loading are not modelled; the settings arrive as an `Environment`.
- The provider's SDK is replaced by given values: the domain listing, the image listing with its pagination, and how each launch request ends.
  - Request building, the 900-second wait for RUNNING and the VNIC lookups are folded into `LaunchOutcome`.
  - The image id, subnet, cloud-init, boot volume size and shape go into the request but affect only that outcome.
- Reading the SSH key and base64-encoding the cloud-init are not modelled. Failing to read the key is the `KeyUnreadable` outcome.
- `time.sleep` is a `Sleep` event. `SLEEP_SECONDS` is a natural number; a negative value, which makes `time.sleep` raise and stops the script, is not modelled.
- Writing the success record is a `WriteSuccess` event and is taken to succeed. An I/O error there would be caught and followed by a sleep; that path is not modelled.
- Errors from `int()` on malformed `SLEEP_SECONDS`, `MEM_PER_OCPU` or `BOOT_VOLUME_GB`, and from listing images, stop the script before the loop; they are not modelled.
- `traceback.print_exc` is not modelled.
- `Settings.OcpuEntriesOne` (and with it `ParseOcpus`) reads a piece whose stripped text is all digits as its value. At oci_a1_autoclaim.py:32 the filter strips the piece but `int(x)` reads it unstripped, and `int()` skips only ASCII whitespace, not U+001C–U+001F, which `strip()` removes. So a piece whose digits are padded with U+001C–U+001F stops the script with `ValueError` before `main` runs, while the model reads the value. This start-up error is not modelled, like the other `int()` errors above.
- `Text.Lower` and `Text.IsDigit` cover ASCII only. For the words matched after lower-casing the result is exact all the same: the only non-ASCII code points that Python lowers into ASCII are U+0130 (to "i" followed by U+0307) and U+212A (to "k"), and none of "22.04", "24.04", "aarch64", "arm" or the capacity words contains a 'k' or ends in an 'i'.
- Unicode digits that `isdigit` accepts are not modelled.
- `Scheduler.RetryLoop`: the `while True` loop is followed for a given number of passes instead of forever.
- `AutoClaim.Run`: same bound on passes; `sys.exit` is the returned `Ending`.
