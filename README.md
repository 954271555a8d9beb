# WE-WE-WE text heuristics, modelled in Dafny

This project models the deterministic core of the `we_we_we` package and
of the browser extension's content script, and proves properties about it:

- **Vibe sensor** (`Vibe`): tokenising `[\w']+` over the lower-cased text,
  the repetition rate, keysmash candidates and their filter, runs of three or
  more repeated characters and punctuation marks, sugar-word and palindrome
  hits, the capped glitch score, the comfort index and `to_dict`.
- **Security sigil** (`Sigil`): the threat predicate (glitch score or
  standalone "lok" tokens), the sigil symbol and vibe signature, the
  locked/secure verdict, and the palace entry a lock writes.
- **Remix kernel** (`Remix`): `_manifest` (tone down and truncate, or
  sweeten) and the five phase snapshots of `remix`.
- **Memory palace** (`Palace`): artefacts, their dictionary round trip, the
  insertion-ordered store and its `add`, `all` and `search`, and the merge
  done by `_load`.
- **Task manager** (`Tasks`): task recognition, body extraction, `_process`
  and one `run_once` pass with its growing set of seen ids.
- **Plan extractor** (`Plans`): the bullet and step line rules,
  `_extract_lines`, and `extract_to_palace`'s wrapping, storing and count.
- **Log ingestor** (`Logs`): the reversed-line heuristic and `ingest` over
  files already split into lines.
- **Cloak translator** (`Cloak`): `re.sub` for the specific patterns used,
  the template escapes Python applies to replacements, `_apply`, `cloak`,
  the derived reverse map and `reveal`.
- **Quantum bus** (`Bus`): marker validation, log-file naming, the records
  `send_tick` writes, and the filters of `consume` and `handshake`, all over
  an in-memory sequence of log lines.
- **Mesh** (`Mesh`): `_digest_latest`.
- **Content script** (`VibeSync`): `vibeMap` and `scanAndApply` over the
  root element's class list.

Shared string helpers that stand for Python built-ins (`str.lower`,
`str.split`, `str.strip`, `str.splitlines`, slicing and joining) live in
`Text`. The dictionary value type and the `Option` and `Result` wrappers
live in `Values`.

Time, uuids, random numbers and hashes are parameters. An artefact id and
its timestamp come in as a `Stamp`, or from a `clock: nat -> Stamp` when an
operation stores several. SHA-1 and MD5 are functions into fixed-length
lower-case hex strings. Floats are reals.

## Model

| member | source | states |
|---|---|---|
| Text.Lower | we_we_we/vibe_sensor.py:70 | lower-casing keeps the length and maps every character through the ASCII case map |
| Text.Strip | we_we_we/plan_extractor.py:39 | `strip()` leaves no surrounding whitespace, is empty exactly for blank text, never lengthens, and leaves stripped text alone |
| Text.ReverseInvolution | we_we_we/log_ingestor.py:52 | reversing twice gives back the original line |
| Text.SplitLinesNoBreaks | we_we_we/plan_extractor.py:55 | `splitlines()` gives at most one line per character and no line holds a line break |
| Text.SplitLinesJoin | we_we_we/plan_extractor.py:55 | for text whose only breaks are `\n` and that does not end in one, the lines joined with `\n` give back the text |
| Text.FilterIsSubseq | we_we_we/memory_palace.py:74 | a comprehension filter returns a subsequence of its input |
| Vibe.RepeatedTokens | we_we_we/vibe_sensor.py:97-98 | the count of tokens that occur more than once is at most the number of tokens |
| Vibe.RepeatedTokensZero | we_we_we/vibe_sensor.py:97-98 | that count is zero exactly when no token repeats |
| Vibe.RepetitionRate | we_we_we/vibe_sensor.py:94-99 | the repetition rate lies in [0, 1] and is 0 for no words |
| Vibe.RepetitionRateZero | we_we_we/vibe_sensor.py:94-99 | the rate is 0 exactly when no token repeats |
| Vibe.DetectKeysmash | we_we_we/vibe_sensor.py:102-114 | the loop keeps, in order, exactly the candidates that pass the keysmash filter |
| Vibe.KeysmashesAreLetterRuns | we_we_we/vibe_sensor.py:102-114 | the keysmashes are a subsequence of the maximal letter runs of the lower-cased text, each at least 6 long, not a sugar word, and with a smash pattern or more than 4 distinct letters |
| Vibe.RunLengthsSound | we_we_we/vibe_sensor.py:27 | the run decomposition rebuilds the text, and each run is non-empty and differs in character from the next |
| Vibe.ScanCountsLongRuns | we_we_we/vibe_sensor.py:27-28 | the scanner for `(.)\1{2,}` counts exactly the maximal runs of length at least 3 of admissible characters |
| Vibe.PunctOverloadCountsRuns | we_we_we/vibe_sensor.py:75 | `punct_overload` counts each maximal run of three or more identical `!`, `?` or `.` once |
| Vibe.PalindromeMirror | we_we_we/vibe_sensor.py:77 | a palindrome token is longer than 2 and reads the same from both ends |
| Vibe.AnalyzeText | we_we_we/vibe_sensor.py:67-87 | the report's length is the text's, its word count is at most the length, sugar and palindrome hits are at most the word count, and the repetition rate lies in [0, 1] and is 0 without words |
| Vibe.GlitchScore | we_we_we/vibe_sensor.py:43-50 | the glitch score lies in [0, 1] |
| Vibe.GlitchScoreMonotone | we_we_we/vibe_sensor.py:43-50 | the glitch score never falls when any of its four metrics rises |
| Vibe.ComfortIndex | we_we_we/vibe_sensor.py:52-54 | the comfort index lies in [0, 1] and is 1 exactly from three palindromes on |
| Vibe.ToDict | we_we_we/vibe_sensor.py:56-60 | the dictionary has the seven fields plus `glitch_score` and `comfort_index`, equal to the methods' results |
| Sigil.CreateSigil | we_we_we/security_sigil.py:71-75 | the symbol is "∞LOCK-" then the first 6 hex digits of the text's SHA-1; the signature is the first 8 hex digits of its MD5 |
| Sigil.SymbolsCollide | we_we_we/security_sigil.py:72-73 | two texts get the same symbol exactly when their SHA-1 digests share the first six digits |
| Sigil.LeadingToken | we_we_we/security_sigil.py:68 | a leading whitespace-free word adds one to the "lok" count exactly when it lower-cases to "lok" |
| Sigil.LokTokensCount | we_we_we/security_sigil.py:68 | k space-separated copies of a word that lower-cases to "lok" add k to the count |
| Sigil.SevenLoksLock | we_we_we/security_sigil.py:67-69 | seven standalone "lok" tokens, in any case, are a threat whatever the glitch score |
| Sigil.Decide | we_we_we/security_sigil.py:47-64 | the verdict is "locked" exactly on a threat, with the symbol and the sealed message; otherwise "secure", no sigil and the fixed message |
| Sigil.SecuritySigil.constructor | we_we_we/security_sigil.py:41-44 | the thresholds and the palace are the given ones |
| Sigil.SecuritySigil.Evaluate | we_we_we/security_sigil.py:47-78 | the verdict is `Decide`'s; a lock adds exactly one artefact (the text, tagged "security_event" and the symbol), and the secure path leaves the palace unchanged |
| Remix.ToneDown | we_we_we/remix_kernel.py:146 | toning down keeps the length, leaves no `!` or `?`, and changes only those to `.` |
| Remix.ToneDownIdempotent | we_we_we/remix_kernel.py:146 | toning down twice is toning down once |
| Remix.Manifest | we_we_we/remix_kernel.py:141-150 | an unstable text becomes its toned-down first min(n, 280) characters; a stable one gets the sweetener appended |
| Remix.ThresholdIsStrict | we_we_we/remix_kernel.py:144-150 | a score equal to the threshold takes the sweetening branch |
| Remix.CoreTokens | we_we_we/remix_kernel.py:107-109 | `core_tokens` is at most the number of words and is 0 exactly when no word is longer than 3 |
| Remix.CyclePhases | we_we_we/remix_kernel.py:83-138 | the snapshots come in the order original, death, alive, inlive, newbirth, and inlive carries the network signal |
| Remix.CycleDeath | we_we_we/remix_kernel.py:83-101 | the original phase analyses the text; `pruned` is whether the score exceeds the threshold, with the matching note |
| Remix.CycleRebirth | we_we_we/remix_kernel.py:104-130 | `core_tokens` is the only alive key and is bounded by the word count; newbirth analyses the manifested text |
| Palace.StrOf | we_we_we/memory_palace.py:40-41 | `str()` of a present id or text succeeds for strings, integers, booleans and null; a string is kept as it is, and an integer becomes its decimal spelling, which `float()` reads back as the same number |
| Palace.IntStrRoundTrip | we_we_we/memory_palace.py:40-43 | `float(str(i)) == i` for every integer |
| Palace.FloatOfIntStr | we_we_we/memory_palace.py:43 | a timestamp stored as the decimal string of an integer reads back as that number |
| Palace.FromDict | we_we_we/memory_palace.py:38-44 | missing tags default to [] and a missing timestamp to 0.0; a missing id or text is an error; an integer id is stored as its decimal string |
| Palace.DictRoundTrip | we_we_we/memory_palace.py:33-44 | `from_dict(to_dict(a))` gives back `a` |
| Palace.PutEffect | we_we_we/memory_palace.py:59-66 | storing under an id sets that entry, leaves every other id and its entry alone, and grows the store by at most one |
| Palace.Contents | we_we_we/memory_palace.py:76-77 | `all()` lists the entries in id insertion order |
| Palace.ContentsDistinct | we_we_we/memory_palace.py:76-77 | `all()` lists each id once |
| Palace.ContentsExact | we_we_we/memory_palace.py:76-77 | an artefact is listed exactly when it is the entry stored under its id |
| Palace.PutAllLastWins | we_we_we/memory_palace.py:87-89 | after a sequence of stores, an id is present exactly when it was or some artefact carried it; the last artefact with that id wins, and untouched ids keep their entry |
| Palace.PutAllContents | we_we_we/memory_palace.py:87-89 | after a sequence of stores, everything listed was listed before or was stored |
| Palace.PutAllAppend | we_we_we/memory_palace.py:87-89 | storing two sequences one after the other is storing their concatenation |
| Palace.SelectExact | we_we_we/memory_palace.py:70-74 | `search` returns exactly the artefacts carrying every requested tag, as a subsequence in store order, and everything when no tag is asked for |
| Palace.SelectNarrows | we_we_we/memory_palace.py:70-74 | requiring one more tag never enlarges the result |
| Palace.MergeIsPutAll | we_we_we/memory_palace.py:87-89 | merging records that all decode stores the decoded artefacts in order |
| Palace.MemoryPalace.constructor | we_we_we/memory_palace.py:50-52 | a new palace is empty |
| Palace.MemoryPalace.Add | we_we_we/memory_palace.py:56-68 | `add` returns the artefact with the given text, tags in argument order, id and timestamp, and stores it under its id |
| Palace.MemoryPalace.All | we_we_we/memory_palace.py:76-77 | `all()` lists the stored artefacts in insertion order |
| Palace.MemoryPalace.Search | we_we_we/memory_palace.py:70-74 | `search` returns the artefacts of `all()` carrying every requested tag, in order |
| Palace.MemoryPalace.Load | we_we_we/memory_palace.py:80-89 | undecodable data leaves the store unchanged; otherwise records are merged in order, later ids overwriting earlier ones |
| Tasks.BodyAfterFirstColon | we_we_we/task_manager.py:44 | the body is the stripped text after the first `:`, or the whole stripped text when there is none |
| Tasks.PassStoresOutputs | we_we_we/task_manager.py:54-60 | a pass stores, in order, one remix output per pending task of the snapshot |
| Tasks.AllSeenNothingPending | we_we_we/task_manager.py:56-57 | when every id has been seen, nothing is pending |
| Tasks.PassIdle | we_we_we/task_manager.py:54-60 | when outputs are never tasks, after a pass nothing in the palace is still pending |
| Tasks.SecondRunIdle | we_we_we/task_manager.py:54-60 | for any rendering that never turns a cycle `remix` builds into a task (`RendersNoTask`, which the JSON of `to_json` meets), a second pass with no new artefacts finds nothing pending |
| Tasks.TaskManager.constructor | we_we_we/task_manager.py:30-34 | a new manager has seen nothing |
| Tasks.TaskManager.Process | we_we_we/task_manager.py:43-51 | `_process` stores the rendered remix of the body tagged "remixed", then the task's tags, then the task's id |
| Tasks.TaskManager.Visit | we_we_we/task_manager.py:56-60 | visiting marks the id as seen, processes it only when it is an unseen task, and otherwise leaves the palace alone |
| Tasks.TaskManager.RunOnce | we_we_we/task_manager.py:54-60 | `run_once` adds every snapshot id to the seen set and stores exactly the outputs of the pending tasks, in snapshot order; artefacts stored during the pass are not visited |
| Plans.BulletGroup | we_we_we/plan_extractor.py:30 | a bullet group starts with an upper-case letter, has at least two characters and no newline |
| Plans.SeparatorRest | we_we_we/plan_extractor.py:31 | `[:\.]?\s+(.+)` leaves the group to start after the separator and spaces, on a character that is not a newline and, in a stripped line, not whitespace |
| Plans.DigitsRest | we_we_we/plan_extractor.py:31 | whatever number of digits `\d*` gives back, the group starts after them on a character that is not a newline and, in a stripped line, not whitespace |
| Plans.StepRest | we_we_we/plan_extractor.py:31 | after "step", whatever `\s*` gives back, the group starts on a character that is not a newline and, in a stripped line, not whitespace |
| Plans.StepGroup | we_we_we/plan_extractor.py:31 | a step group is non-empty and has no newline |
| Plans.BulletComplete | we_we_we/plan_extractor.py:30-44 | a line of `-` or `*`, a whitespace run and a capital yields the rest of the line from that capital on |
| Plans.BulletSound | we_we_we/plan_extractor.py:30-44 | conversely, a bullet group comes only from such a line and is the line from the capital on |
| Plans.StepComplete | we_we_we/plan_extractor.py:31-48 | "step" in any case, one space, then text that starts with no digit, separator or space yields that text, after the regex gives the space back to `\s+` |
| Plans.StepNumbered | we_we_we/plan_extractor.py:31-48 | "step", optional whitespace, optional digits, `:` or `.`, whitespace, then text starting on a non-space yields that text ("Step 2: do that") |
| Plans.LineBullet | we_we_we/plan_extractor.py:38-45 | a line that is a bullet line once stripped yields the text from its capital on, stripped |
| Plans.LineStep | we_we_we/plan_extractor.py:38-49 | a line that is a numbered step line once stripped yields its text after the separator, stripped |
| Plans.LineTask | we_we_we/plan_extractor.py:38-49 | lines shorter than 4 after stripping yield nothing; the bullet rule wins; every result is stripped |
| Plans.LineTaskNonEmpty | we_we_we/plan_extractor.py:39-49 | every extracted task is non-empty |
| Plans.ExtractAll | we_we_we/plan_extractor.py:36-50 | at most one task per line, each non-empty and stripped |
| Plans.ExtractAllAppend | we_we_we/plan_extractor.py:36-50 | lines are handled independently and in order: extracting from a concatenation concatenates the results |
| Plans.ExtractLines | we_we_we/plan_extractor.py:36-50 | the loop returns exactly the specified task list |
| Plans.WrapIsTask | we_we_we/plan_extractor.py:58 | every "TASK: …" text is recognised as a task |
| Plans.WrapBody | we_we_we/plan_extractor.py:58 | the task manager's body of a wrapped stripped task is the task itself |
| Plans.Wrapped | we_we_we/plan_extractor.py:57-58 | one artefact per task, its text "TASK: " + task, tagged "extracted" and the file name |
| Plans.WrappedAreTasks | we_we_we/plan_extractor.py:55-58 | every artefact stored from extracted lines is a task |
| Plans.AddWrapped | we_we_we/plan_extractor.py:57-58 | the loop stores the wrapped artefacts in order |
| Plans.RemixFresh | we_we_we/plan_extractor.py:59-61 | the follow-up run is one pass of a fresh task manager |
| Plans.StoredWithoutRemix | we_we_we/plan_extractor.py:55-62 | without remix, each task's artefact is stored under its own stamp |
| Plans.StoredWithRemix | we_we_we/plan_extractor.py:59-61 | with remix, every freshly stored task is pending for the new manager and its body is the extracted task |
| Plans.StoreTasks | we_we_we/plan_extractor.py:57-61 | storing and the optional remix pass give the specified store |
| Plans.ExtractToPalace | we_we_we/plan_extractor.py:53-62 | the count returned is the number of extracted tasks, and the palace is the specified store |
| Logs.Letters | we_we_we/log_ingestor.py:32 | the letter count is at most the length |
| Logs.ReversedExactly | we_we_we/log_ingestor.py:26-37 | blank text is never reversed; otherwise it is reversed exactly when 5·letters ≥ 3·max(1, length) and two distinct common words occur |
| Logs.RatioBound | we_we_we/log_ingestor.py:33-34 | the ratio test is the integer comparison 5·letters ≥ 3·max(1, length) |
| Logs.ReverseKeepsLetters | we_we_we/log_ingestor.py:52 | reversal keeps the letter count |
| Logs.ReverseKeepsRatio | we_we_we/log_ingestor.py:52 | reversal keeps the letter ratio |
| Logs.ReversalsMember | we_we_we/log_ingestor.py:52 | a text is among the reversals exactly when its reversal is one of the lines |
| Logs.FindsExact | we_we_we/log_ingestor.py:48-54 | a find comes from a file exactly when its reversal is a line of that file and it passes the heuristic |
| Logs.IngestLine | we_we_we/log_ingestor.py:52-54 | a line whose reversal passes adds one artefact (the reversal, tagged "decoded" and the file name); any other line adds nothing |
| Logs.IngestFile | we_we_we/log_ingestor.py:51-54 | the loop over a file's lines stores its finds in line order |
| Logs.Ingest | we_we_we/log_ingestor.py:48-54 | `ingest` stores, in file and line order, one artefact per passing reversed line |
| Cloak.MRunOnlyMaximal | we_we_we/cloak_translator.py:32 | `\bmmm+\b` cannot end inside a run of m's, so it matches only whole runs |
| Cloak.SubNoMatch | we_we_we/cloak_translator.py:50 | with no match from a position on, `re.sub` copies the rest unchanged |
| Cloak.SubFirstMatch | we_we_we/cloak_translator.py:50 | `re.sub` copies up to the leftmost match, writes the replacement, and resumes after the match |
| Cloak.ExpandPlain | we_we_we/cloak_translator.py:50 | a replacement without backslashes is used literally |
| Cloak.AppliedAppend | we_we_we/cloak_translator.py:48-51 | `_apply` over two rule lists is the second over the first's output |
| Cloak.AppliedDefined | we_we_we/cloak_translator.py:48-51 | `_apply` succeeds when every template is accepted |
| Cloak.AppliedNoMatch | we_we_we/cloak_translator.py:48-51 | text no pattern matches comes back unchanged |
| Cloak.Apply | we_we_we/cloak_translator.py:48-51 | the loop applies each rule in order to the previous output |
| Cloak.TableClean | we_we_we/cloak_translator.py:30-38 | every entry of the table has a plain pattern and a corporate phrase with one bracketed acronym |
| Cloak.FirstCapitals | we_we_we/cloak_translator.py:30-38 | the seven corporate phrases start with Q, M, S, P, P, S, N |
| Cloak.CloakTemplatesPlain | we_we_we/cloak_translator.py:30-38 | every corporate phrase is used literally as a replacement |
| Cloak.CloakUnchanged | we_we_we/cloak_translator.py:54-56 | `cloak` never fails, and text matching none of the seven patterns comes back unchanged |
| Cloak.CloakText | we_we_we/cloak_translator.py:54-56 | the method computes `cloak` |
| Cloak.AcronymKeyAppend | we_we_we/cloak_translator.py:42 | the key of a concatenation is the concatenation of the keys |
| Cloak.AcronymKeyLetters | we_we_we/cloak_translator.py:42 | a key holds only lower-case ASCII letters |
| Cloak.AcronymKeyNone | we_we_we/cloak_translator.py:42 | text without capitals has the empty key |
| Cloak.KeyOfGloss | we_we_we/cloak_translator.py:41-44 | a phrase's key is the lead's capitals, then the bracketed acronym's, then the tail's |
| Cloak.KeysFirst | we_we_we/cloak_translator.py:41-44 | both keys start with the phrase's first letter, lower-cased, and the as-written key is longer than the acronym |
| Cloak.KeyDoubled | we_we_we/cloak_translator.py:41-44 | when the lead's capitals spell the acronym and the tail has none, the as-written key is the acronym's key twice |
| Cloak.StripLeft | we_we_we/cloak_translator.py:42 | `lstrip` removes exactly the leading characters of the set |
| Cloak.StripRight | we_we_we/cloak_translator.py:42 | `rstrip` removes exactly the trailing characters of the set |
| Cloak.StripBounded | we_we_we/cloak_translator.py:42 | `strip("\\b")` of `\b` + x + `\b` is x when x starts and ends outside `\` and `b` |
| Cloak.StripRendered | we_we_we/cloak_translator.py:42-43 | each reverse-map value is its pattern's source without the `\b` anchors |
| Cloak.ReverseMapShape | we_we_we/cloak_translator.py:41-44 | each as-written key is all the phrase's capitals, lower-cased; each value is the unanchored pattern |
| Cloak.IntendedMapShape | we_we_we/cloak_translator.py:41-44 | each intended key is the bracketed acronym lower-cased, shorter than the as-written key; values as above |
| Cloak.ExpandEscaped | we_we_we/cloak_translator.py:63 | a template made of escaped hyphens and plain characters expands to itself |
| Cloak.ExpandRendered | we_we_we/cloak_translator.py:65-66 | a pattern's source read as a template gives backspace, the unanchored pattern, backspace |
| Cloak.PhraseShape | we_we_we/cloak_translator.py:65 | a phrase pattern starts with the phrase's first letter and is at least as long as its first word |
| Cloak.RevealShape | we_we_we/cloak_translator.py:59-66 | every reveal rule, as written and intended, looks for a literal starting with its entry's initial |
| Cloak.KeyTemplates | we_we_we/cloak_translator.py:62-63 | the acronym stage's templates are accepted and expand to the unanchored pattern |
| Cloak.InverseTemplates | we_we_we/cloak_translator.py:65-66 | as written, the phrase stage's templates expand to backspace + pattern + backspace; as intended, to the pattern |
| Cloak.RevealAccepted | we_we_we/cloak_translator.py:59-66 | every reveal template is accepted |
| Cloak.RevealDefined | we_we_we/cloak_translator.py:59-66 | `reveal` never fails, as written or as intended |
| Cloak.RevealText | we_we_we/cloak_translator.py:59-66 | the method runs the acronym stage and then the phrase stage, computing `reveal` as written |
| Cloak.RevealIntendedText | we_we_we/cloak_translator.py:59-66 | the same two stages over the corrected keys and templates |
| Cloak.RevealKeepsAcronymOf | we_we_we/cloak_translator.py:59-66 | for any table whose first key is doubled, the bare acronym passes through `reveal` unchanged |
| Cloak.RevealIntendedAcronymOf | we_we_we/cloak_translator.py:59-66 | with the acronym as key, the bare acronym is revealed as its playful word |
| Cloak.RevealKeepsQere | we_we_we/cloak_translator.py:59-66 | `reveal("QERE")` is "QERE" |
| Cloak.RevealIntendedQere | we_we_we/cloak_translator.py:59-66 | the intended `reveal("QERE")` is "jajajaja" |
| Cloak.InverseOnPhrase | we_we_we/cloak_translator.py:65-66 | as written, each phrase is replaced by backspace, its playful pattern without anchors, backspace |
| Cloak.IntendedOnPhrase | we_we_we/cloak_translator.py:65-66 | as intended, each phrase is replaced by its playful pattern without anchors; for `sugar\-blown` that keeps the backslash, as the acronym stage at lines 62-63 does |
| Bus.Utf8Width | we_we_we/quantum_bus.py:61 | a character takes 1 to 4 bytes: 1 exactly below U+0080, 4 exactly from U+10000 on |
| Bus.Utf8Len | we_we_we/quantum_bus.py:61 | the encoded length lies between the character count and four times it |
| Bus.AstralAccepted | we_we_we/quantum_bus.py:61-62 | a marker holding a character beyond the Basic Multilingual Plane is accepted |
| Bus.AsciiMarker | we_we_we/quantum_bus.py:61-62 | an ASCII marker is accepted exactly when it has at least 4 characters |
| Bus.Hex | we_we_we/quantum_bus.py:66 | `f"{n:x}"` is non-empty lower-case hex without a leading zero |
| Bus.HexRoundTrip | we_we_we/quantum_bus.py:66 | reading the hex digits back gives the number |
| Bus.FieldsJoin | we_we_we/quantum_bus.py:66 | splitting on `_` undoes joining parts that hold no `_` |
| Bus.SafeNameRoundTrip | we_we_we/quantum_bus.py:66 | the safe name splits back into one hex field per code point of the marker |
| Bus.LogFileNameInjective | we_we_we/quantum_bus.py:66-67 | different markers get different log files |
| Bus.TickStamp | we_we_we/quantum_bus.py:113 | a given non-zero timestamp is kept; a missing or zero one becomes the current time |
| Bus.TicksAppend | we_we_we/quantum_bus.py:125-135 | the payloads of a longer log are those of its parts, in order |
| Bus.TicksMember | we_we_we/quantum_bus.py:127-135 | a payload is consumed exactly when a parsed tick record from another node carries it |
| Bus.OwnTickUnseen | we_we_we/quantum_bus.py:132-133 | a node's own tick is invisible to itself and appended for every other node |
| Bus.PeersMember | we_we_we/quantum_bus.py:99-103 | an id is a peer exactly when a parsed handshake record of it is younger than twice the timeout |
| Bus.ReadyMeansOther | we_we_we/quantum_bus.py:104 | with the node among its peers, two or more peers means at least one other node |
| Bus.OwnHandshakePeer | we_we_we/quantum_bus.py:94-103 | a recent own handshake makes the node its own peer |
| Bus.QuantumBus.Init | we_we_we/quantum_bus.py:63-67 | the bus keeps its marker and id, and its path is the marker's log file |
| Bus.QuantumBus.Open | we_we_we/quantum_bus.py:60-70 | opening fails exactly for a marker under 4 UTF-8 bytes; otherwise the log is the existing one or empty |
| Bus.QuantumBus.SendTick | we_we_we/quantum_bus.py:109-117 | exactly one tick record, with the node's id and the payload, is appended |
| Bus.QuantumBus.Consume | we_we_we/quantum_bus.py:119-135 | as intended, with the offset kept without `f.tell()` (see Findings): the loop yields the payloads of other nodes' ticks in log order |
| Bus.ConsumeAsWritten | we_we_we/quantum_bus.py:123-126 | as written, `consume` raises at its first line, blank or not, and yields nothing; it succeeds only on an empty log, where it agrees with the intended loop |
| Bus.TickLostAsWritten | we_we_we/quantum_bus.py:126-133 | a log holding one tick from another node: the intended loop yields its payload, the written one raises |
| Bus.QuantumBus.PeersAt | we_we_we/quantum_bus.py:99-103 | the loop collects exactly the recent handshake ids |
| Bus.QuantumBus.Handshake | we_we_we/quantum_bus.py:92-107 | the own handshake is appended first; success exactly when a poll within the timeout sees two or more peers |
| Mesh.Latest | we_we_we/mesh.py:24 | the chosen artefact has the greatest timestamp and every earlier one has a strictly smaller one |
| Mesh.LatestUnique | we_we_we/mesh.py:24 | only one position satisfies that, so ties go to the first in store order |
| Mesh.LatestAppend | we_we_we/mesh.py:24 | a later artefact wins only with a strictly greater timestamp |
| Mesh.DigestLatest | we_we_we/mesh.py:20-26 | empty palace gives nothing; otherwise the hash is 8 hex digits prefixing the latest text's SHA-1, and the tags are its first min(5, n) tags |
| Mesh.DigestOfPalace | we_we_we/mesh.py:20-23 | the digest is empty exactly for an empty palace |
| VibeSync.PlusAddsNothing | web/vibe_sync_ext/content.js:4 | `/mmm+/i` tests true exactly where `/mmm/i` does |
| VibeSync.ScanKeeps | web/vibe_sync_ext/content.js:12 | a pass only adds: the old class list stays, in order, at the front |
| VibeSync.ScanMember | web/vibe_sync_ext/content.js:10-14 | after a pass a class is present exactly when it was before or an entry for it matches the text |
| VibeSync.ScanSettled | web/vibe_sync_ext/content.js:10-14 | a pass that finds all its classes present changes nothing |
| VibeSync.ScanIdempotent | web/vibe_sync_ext/content.js:8-15 | two passes on the same text give the class list of one |
| VibeSync.VibeClasses | web/vibe_sync_ext/content.js:2-14 | vibe-joy, vibe-hum and vibe-paranoia are present exactly when they were or the text holds "jajaja", "mmm" or "lok kkkk" in any case; other classes are untouched |
| VibeSync.Root.ScanAndApply | web/vibe_sync_ext/content.js:8-15 | the forEach loop leaves the class list the specified pass gives |

## Left out

- File I/O: reading and writing the palace's JSON file, the bus's log file, the plan and log files, and glob expansion. The palace's file content comes in as an optional list of records, the bus log as a sequence of lines, and files as text.
- JSON parsing and rendering. A bus log line is already blank, malformed or a parsed record; `RemixCycle.to_json` is a parameter `render`.
- Time, uuid and `random.uniform` are parameters (`Stamp`, a clock, `signal`). So are SHA-1 and MD5: `hashlib` is not part of this model.
- Vibe.GlitchScore: the `round(score, 3)` is not modelled; floats are reals throughout. The thresholds built on the score see it unrounded too: Sigil.IsThreat and Sigil.Decide (`>= 0.6`), Remix.Manifest and Remix.CycleDeath (`> 0.5`). A score of 0.5998, which Python rounds to 0.6 and locks, is secure in the model.
- Palace.FromDict: `str()` of a float or of a list (Python's shortest float repr and the list repr) and `float()` of `inf`, `infinity` or `nan` are not modelled; they come back as `Unparsed`. `float()` of a numeric string reads ASCII digits only and gives the exact decimal value, while Python rounds to the nearest double and overflows to infinity.
- `\w`, `\d`, `str.lower` and the IGNORECASE folding of `\b` and `[a-z]` are taken over ASCII. Python also folds `ſ`, the Kelvin sign, `İ` and `ı`, and its `\w` and `lower()` cover all of Unicode.
- Cloak.Expand: template group references and octal escapes are not modelled; they count as rejected templates, and none of the templates used has one.
- Cloak.CorpToPlayful is an ordered list of pairs. A dict comprehension would keep only the last of two equal keys; that overwrite is not modelled.
- `_broadcast_threat` in `SecuritySigil.evaluate` is left out. It swallows every exception, so it cannot change the verdict.
- The containment branch of `remix` (`alert_tokens`) is left out: the report has no such field, so the branch never fires.
- `remix`'s `context` argument is left out, because the source does not read it.
- Bus.QuantumBus.Handshake: every poll reads the log as it stands after the own append; appends by other processes during the wait are not modelled. One clock reading per poll stands for the two calls to `time.time()`, and the start time also stamps the own record.
- Bus.QuantumBus.Consume: `follow=True`, with its tailing and sleeping, is left out. One call reads the log once, from the start.
- Bus.Line: `_Record(**data)` checks only the key names, never the value types, while the model's records hold a string id, a numeric ts, a string type and a map payload; a line with the right keys but other value types is `Malformed` here. In Python such a line behaves as follows: a tick with a numeric id, a list payload or any other payload is still yielded by `consume` (the id differs from the node's own); a handshake record whose `ts` is a string, a list or null makes `handshake` raise `TypeError` at line 102; a handshake record with a list or dict id makes it raise `TypeError` in the set comprehension at lines 99-103; a record whose type is not a string is neither a tick nor a handshake, as in the model. A line that is JSON but not an object, or has missing or extra keys, is skipped in both.
- Bus.TickStamp: a non-numeric `ts` is not modelled.
- Bus.Utf8Len: lone surrogates, which Python refuses to encode, are not modelled.
- Plans.RemixFresh: `TaskManager()` opens its own `MemoryPalace` on the same file; the model runs the manager on the extractor's palace object. The two agree because the extractor saves after each add and loading merges the saved records (see Palace.DictRoundTrip); the file round trip itself is not modelled.
- `mesh.run_forever`, `TaskManager.run_loop`, `consume_forever` and every CLI `_main` are left out: they are timing loops and argument parsing around the modelled operations.
- `document.body.innerText` comes in as the text parameter `body`; `setInterval` is left out.
- License forging, the prior-art flood, the agent tools, the adapters and the Electron glue are not part of this model.

## Findings

| source | as written | input that shows it | evidently intended | confidence | as-written member | corrected member |
|---|---|---|---|---|---|---|
| we_we_we/cloak_translator.py:42 | each reverse-map key is every capital of the corporate phrase, lower-cased, so the key for "Quantum Emotional Resonance Event (QERE)" is "qereqere" | `reveal("QERE")` returns "QERE" | the key is the acronym in the parentheses ("acronym in lower"), so `reveal("QERE")` returns "jajajaja" | not executed | Cloak.RevealKeepsQere | Cloak.RevealIntendedQere |
| we_we_we/cloak_translator.py:65-66 | the inverse map's replacements are the playful patterns' sources, such as `\bjajajaja\b`, and `re.sub` reads `\b` in a replacement as a backspace | the phrase rule applied to "Quantum Emotional Resonance Event QERE" (the parentheses form a group) gives "\x08jajajaja\x08" | each phrase is replaced by its playful pattern without the `\b` anchors, "jajajaja" here; for `sugar\-blown` the escape stays, as in the acronym stage | not executed | Cloak.InverseOnPhrase | Cloak.IntendedOnPhrase |
| we_we_we/quantum_bus.py:126 | `seen_offset = f.tell()` runs inside `for line in f` on a file opened in text mode, and CPython's text reader refuses `tell()` while `next()` iterates, raising `OSError` outside the `try` | a log holding one tick record from node "ab12cd34", consumed by node "00000000": the call raises instead of yielding `{}` | the offset is tracked without `tell()`, so one pass yields every other node's tick payload in log order | not executed | Bus.TickLostAsWritten | Bus.QuantumBus.Consume |
