# indexnow-keygen, modelled in Dafny

indexnow-keygen is a small interactive command-line program. It generates
IndexNow site-verification keys and saves each one as `static/<key>.txt`.
`run` makes sure the `static` directory exists. It then asks for a count on
standard input until it gets a positive integer, and calls
`generateAndSaveKeys(count)`.

`generateAndSaveKeys` works one key at a time:
- It generates the key with `generateSecureKey`: a random length from 64
  to 96, then one random character per position from the 63-character
  alphabet `a-z A-Z 0-9 -`, read from `crypto/rand`.
- It skips the key if its file already exists.
- Otherwise it writes the key to the file.
- Every failure is collected, and the loop goes on.
- At the end, any error makes the whole run fail with "n out of count keys
  failed to generate".

The model makes each outside influence an explicit input:
- **Random source.** A sequence of reads, each returning a byte or failing
  (`KeyGen.Draw`). An exhausted sequence is a failed read. `rand.Int` for
  the two bounds the program uses (33 and 63) is modelled exactly: it reads
  one byte, masks it to six bits, and rejects and retries values at or
  above the bound.
- **Standard input.** The whole typed text, as a string.
- **Output directory.** A map from path to file contents (`Batch.Directory`).
- **Outcome of each file write.** A function from the iteration number to
  `Written`, `CreateFailed` or `WriteFailed(bytes written)`.
- **`ensureOutputDir`.** Whether it succeeds is a boolean.

Modules:
- `Config`: the constants and the IndexNow key format.
- `KeyGen`: `rand.Int` and `generateSecureKey`.
- `CountPrompt`: `strings.TrimSpace`, `strconv.Atoi`, the count check and
  the prompt loop.
- `Batch`: `writeKeyToFile`, `generateAndSaveKeys` and `run`.
- `Wrappers`: `Option` and `Result`.

What is proved:
- **Generated keys.** Every generated key has 64 to 96 characters, all from
  the alphabet, and so meets the IndexNow format (8 to 128 characters of
  `a-z A-Z 0-9 -`). A failed random read yields an error and the empty
  string, never a partial key. Every such key can be produced by some
  sequence of reads.
- **Count prompt.** A line is accepted exactly when it is an optionally
  signed decimal numeral with white space around it whose value is a
  positive int64, and the count is that value. The prompt loop returns the
  first accepted line. Rejected lines are skipped. Running out of newlines
  is a read error.
- **Batch.** The batch never changes a file that existed before. Each
  reported key is valid, distinct and stored verbatim. Any other new file
  holds a prefix of its key's text. Saved keys plus errors equal the count,
  and the run fails exactly when an error was recorded.

## Model

| member | source | states |
|---|---|---|
| Config.AlphabetLength | main.go:18 | the alphabet has 63 characters |
| Config.AlphabetAt | main.go:16-18 | every alphabet position holds an IndexNow character (a-z, A-Z, 0-9 or '-') |
| Config.IndexNowCharInAlphabet | main.go:16-18 | every IndexNow character occurs in the alphabet |
| Config.AlphabetIsIndexNowCharset | main.go:16-18 | a character is in the alphabet exactly when the IndexNow format allows it |
| Config.ValidKeyIsIndexNowKey | main.go:20-22 | a key of 64 to 96 alphabet characters meets the IndexNow limit of 8 to 128 allowed characters |
| KeyGen.FailedReadsConsumed | main.go:124-127 | the reads consumed down to a suffix all returned a byte exactly when the suffix keeps every failed read of the source |
| KeyGen.RandInt | main.go:124-127 | rand.Int on bound 33 or 63 leaves a suffix of the source. A returned value is below the bound and consumed no failed read. No value means a failed read was consumed or the source ran out |
| KeyGen.RandIntTakesInRangeByte | main.go:124 | a first byte below the bound is the drawn value and consumes one read |
| KeyGen.FillKey | main.go:132-141 | the character loop as a function: one index draw per position, the empty string and CharDrawFailed on the first failed draw; FillKeyResult, FillKeySuffix, FillKeyReads and FillKeyReplays state what it yields |
| KeyGen.FillKeySuffix | main.go:135-140 | the character loop only consumes reads from the front of the source |
| KeyGen.FillKeyResult | main.go:132-141 | the character loop yields exactly `remaining` more alphabet characters, or the empty string with a character-draw error |
| KeyGen.FillKeyReads | main.go:135-140 | the loop succeeds only if it consumed no failed read, and fails only after consuming one or exhausting the source |
| KeyGen.SecureKey | main.go:121-144 | generateSecureKey as a function of the reads: the length draw, then FillKey over the alphabet; SecureKeyIsValid, SecureKeyFailure and SecureKeyReachesEveryValidKey state what it returns |
| KeyGen.SecureKeyIsValid | main.go:121-144 | a key returned without error has 64 to 96 characters, all from the alphabet |
| KeyGen.SecureKeyIsIndexNowKey | main.go:121-144 | a key returned without error meets the IndexNow key format |
| KeyGen.SecureKeyFailure | main.go:124-139 | the generator leaves a suffix of the source. Consuming a failed read gives an error and the empty key. An error arises only from a consumed failed read or an exhausted source |
| KeyGen.SecureKeyFailsOnFailedRead | main.go:124-139 | if any read the generator consumed failed, it returns an error and the empty string, never a partial key |
| KeyGen.FillKeyStep | main.go:136-140 | drawing index i appends the i-th alphabet character |
| KeyGen.SecureKeyLengthByte | main.go:123-129 | a first byte below 33 fixes the key length at 64 plus that byte |
| KeyGen.FillKeyReplays | main.go:135-141 | replaying the index reads of any alphabet string makes the loop append exactly that string |
| KeyGen.SecureKeyReachesEveryValidKey | main.go:123-143 | every valid key is produced by some sequence of reads, so the output range is exactly the valid keys |
| KeyGen.FillBuffer | main.go:132-141 | the in-place buffer loop computes the character-loop specification FillKey |
| KeyGen.GenerateSecureKey | main.go:121-144 | generateSecureKey returns SecureKey of its reads: a valid key, or an error and the empty string |
| CountPrompt.IsSpace | main.go:67 | unicode.IsSpace, which strings.TrimSpace strips: the Latin-1 white space and the other White_Space code points; TrimSpaceOfPadded and TrimSpaceSplit use it |
| CountPrompt.LeadingSpace | main.go:67 | the count of leading white space never exceeds the length |
| CountPrompt.LeadingSpaceIsMaximal | main.go:67 | TrimSpace removes all leading white space and stops at the first other character |
| CountPrompt.TrailingSpace | main.go:67 | the count of trailing white space never exceeds the length |
| CountPrompt.TrailingSpaceIsMaximal | main.go:67 | TrimSpace removes all trailing white space and stops at the last other character |
| CountPrompt.TrimSpace | main.go:67 | the trimmed line neither starts nor ends with white space and is no longer than the line |
| CountPrompt.TrimSpaceOfPadded | main.go:67 | white space around a trimmed text is removed, and the text itself is kept |
| CountPrompt.TrimSpaceSplit | main.go:67 | every line is its trimmed text with white space before and after it |
| CountPrompt.Atoi | main.go:68 | a parsed value lies in the 64-bit int range |
| CountPrompt.AtoiItoa | main.go:68-72 | Atoi reads back the decimal form of every int64 |
| CountPrompt.ValidateCount | main.go:67-79 | an accepted line gives a count from 1 to the int64 maximum |
| CountPrompt.ValidateCountAcceptsPositive | main.go:67-79 | a positive int64, with any white space around it, is accepted as that count |
| CountPrompt.ValidateCountRejectsNonPositive | main.go:74-77 | zero or a negative number, with any white space around it, is rejected as not positive |
| CountPrompt.ValidateCountRejectsNonNumbers | main.go:68-72 | a blank line, or a trimmed text not ending in a digit, is rejected as not a number |
| CountPrompt.AtoiOfNumeral | main.go:68 | Atoi parses an optional sign and at least one digit to its value, leading zeros and '+' included, and fails exactly when the value is outside the int64 range |
| CountPrompt.AtoiNumeralForm | main.go:68 | whatever Atoi parses is such a numeral, and the value returned is the numeral's value |
| CountPrompt.ValidateCountOfNumeral | main.go:67-79 | a numeral with white space around it is accepted as its value when that is a positive int64, rejected as not positive when zero or negative, and rejected as not a number on overflow |
| CountPrompt.ValidateCountNumeralForm | main.go:67-79 | conversely, a line not rejected as a number is an in-range numeral with white space around it, decided by its value; so "1 2", "1a2" and "--5" are not numbers |
| CountPrompt.NewlineIndex | main.go:62 | the index found is a newline, and no newline comes before it |
| CountPrompt.NewlineIndexAt | main.go:62 | a newline with none before it is the one ReadString stops at |
| CountPrompt.ReadLine | main.go:62 | for a line followed by a newline, ReadString returns that line with its newline and leaves the rest unread |
| CountPrompt.FirstAccepted | main.go:60-80 | the prompt loop's outcome: a positive count on success |
| CountPrompt.RejectedLineIsSkipped | main.go:67-77 | a rejected line is consumed and the loop prompts again on what follows |
| CountPrompt.RejectedLinesAreSkipped | main.go:60-80 | any number of rejected lines before the rest of the input are skipped without ending the loop |
| CountPrompt.AcceptedLineEndsPrompt | main.go:74-79 | an accepted line ends the loop with its count |
| CountPrompt.NoLineIsReadError | main.go:62-65 | input with no newline left ends the loop with a read error |
| CountPrompt.FindNewline | main.go:62 | the newline scan finds the newline ReadString stops at, or reports none |
| CountPrompt.PromptForKeyCount | main.go:57-81 | the read loop returns FirstAccepted of the input: a positive count, or the read error |
| Batch.KeyOfPath | main.go:93-94 | the key taken back from a key path is as long as the path minus the directory and ".txt" |
| Batch.KeyPath | main.go:93-94 | filepath.Join of the output directory and key + ".txt": the path is 5 characters longer than directory and key together, and the key sits between the directory's "/" and ".txt" |
| Batch.KeyPathRoundTrip | main.go:93-94 | a key's path is recognised as a key path and gives the key back |
| Batch.KeyOfPathRoundTrip | main.go:93-94 | a key path is the path of the key it names |
| Batch.KeyPathInjective | main.go:93-94 | different keys are saved under different paths |
| Batch.WriteKeyToFile | main.go:146-158 | success exactly when both calls succeed. A failed create changes nothing. Otherwise only the key's path changes; it is added, and it holds a prefix of the key, the whole key on success |
| Batch.SaveKeys | main.go:86-108 | after n iterations, saved keys plus recorded errors number n |
| Batch.Store | main.go:87-107 | one iteration of the loop body, collision check included: it records exactly one outcome, a saved key or an error, saves only the key just generated, and passes on the remaining reads |
| Batch.PartialFiles | main.go:102-105 | the errors that leave a partly written file are among all errors |
| Batch.PartialFilesAppend | main.go:102-105 | a new error adds a partly written file exactly when it is a failed write |
| Batch.StoreKeepsFiles | main.go:96-100 | an iteration never removes or changes a file that existed before the batch |
| Batch.StoreStoresKeys | main.go:93-105 | after an iteration, every saved key is valid, had no file before the batch, and its file holds exactly the key |
| Batch.StoreDistinct | main.go:96-107 | an iteration never saves a key already saved |
| Batch.StoreNewFiles | main.go:102-105 | every file created by the batch belongs to a valid key and holds a prefix of it |
| Batch.StoreOnlySaved | main.go:102-107 | unless a save failed, every file created by the batch belongs to a saved key |
| Batch.StoreCountsFiles | main.go:96-107 | new files number the saved keys plus the partly written files |
| Batch.StoreKeepsSaves | main.go:86-108 | one iteration of the loop body keeps all of the batch's guarantees |
| Batch.GenerateAndSaveKeys | main.go:83-119 | the loop computes SaveKeys and keeps the guarantees. Saves plus errors equal max(count, 0). The result is the "n out of count" failure exactly when the error list is non-empty |
| Batch.Run | main.go:34-48 | a failed directory step or a failed count read changes nothing. Otherwise the batch runs on the first accepted count. Existing files are untouched and saved keys are valid, distinct and stored. Success means exactly count new files, one per saved key |

## Left out

- Randomness quality: whether `crypto/rand` is uniform or cryptographically strong is a probabilistic claim. The model only fixes how reads become values.
- `rand.Int` is modelled only for bounds from 33 to 64, the two the program uses.
- Real filesystem calls. `os.Stat`, `os.MkdirAll`, `os.Create`, `WriteString` and `Close` are replaced by the directory map and the supplied write outcomes.
- The `static` directory itself is not an entry of the map.
- A `Stat` error on a file that exists (such as a permission error) is not modelled. The model treats `Stat` as failing exactly when the path is absent.
- The error of the deferred `Close` is ignored, as the program does.
- `ensureOutputDir` (main.go:50-55) is reduced to the boolean `dirReady` that Run receives.
- The stat-then-create race between main.go:97 and main.go:147 needs concurrency, which the program does not have.
- Console output: the prompt, the diagnostics, the per-key lines and the error summary (main.go:29-31, 61, 70, 75, 107, 111-114). The keys that would be printed are returned as `saved`, and the error list as `errors`.
- `main` and `log.Fatalf` (main.go:28-32): the process exit is not modelled. The run's error result decides it.
- `bufio` buffering. Standard input is one string. For a final line with no newline, ReadString returns io.EOF, and main.go:63-65 treats that as a read error, so a final count typed without a newline is not accepted.
- Strings are sequences of Unicode characters, not UTF-8 bytes. TrimSpace uses unicode.IsSpace's code points, and invalid UTF-8 is not modelled.
- `int` is taken to be 64 bits wide. Atoi's range check uses the int64 bounds.
- `filepath.Join` is modelled as `static/` + key + `.txt`. Key characters include neither '/' nor '.', so Join cleans nothing away.
- Console messages are identified by their error constructor and key number, not by their text.
