# Advent of Code 2017 solutions, modelled in Dafny

This project models the puzzle solutions of one Advent of Code 2017 repository and
proves what they compute. Most days are Go types with methods in `dayN_test.go`; day 25
is `day25.go`, and days 1 and 24 are Ruby classes in `day1_spec.rb` and `day24_spec.rb`.

There is one Dafny module per day:

| module | day | what it models |
|---|---|---|
| `Captcha` | 1 | the inverse captcha's two digit-matching sums |
| `Spreadsheet` | 2 | reading tab-separated rows, then the two checksums |
| `Spiral` | 3 | the square spiral's numbering and Manhattan distance |
| `Passphrase` | 4 | the two passphrase policies |
| `Trampoline` | 5 | the jump maze and its two run variants |
| `MemoryBanks` | 6 | block reallocation and cycle detection |
| `Tower` | 7 | the program tower, its root and its corrected weight |
| `Registers` | 8 | the conditional register machine |
| `Stream` | 9 | the group and garbage stream scorer |
| `KnotHash` | 10 | the knot hash rounds |
| `Pipes` | 12 | pipe groups |
| `Firewall` | 13 | the packet scanners and the delay search |
| `Disk` | 14 | used squares and regions of the defragmenter grid |
| `Generator` | 15 | the dueling generators and their judge |
| `Dance` and `Promenade` | 16 | the dance steps, and danceN's two-phase replay |
| `Spinlock` | 17 | the spinlock |
| `Duet` | 18 | the register CPU with snd/rcv queues |
| `Routing` | 19 | the routing diagram walk |
| `Fractal` | 21 | fractal art enhancement |
| `Virus` | 22 | the sporifica virus |
| `Bridges` | 24 | the magnetic bridges |
| `Turing` | 25 | the Turing machine blueprint and its run |

`Common` holds Option/Result and sums. `Text` holds Go's strings.Split and
strings.Fields, strconv.Atoi and strconv.Itoa, and the regexp captures the readers use.
The `*_examples.dfy` files state the tests' worked examples about the model.

Code that changes state in place becomes a class, and each method is proved against
a value-level specification function. Examples are Go objects that mutate fields, the
tape map of day 25, and the arrays of days 5, 6, 10, 14 and 21. Pure code becomes
functions, and the puzzles' promises are lemmas about those functions. Go's panics
and Ruby's raises are error results (`None`, `Err`, or a status) of the specification
functions. A method that changes an object in place requires an input on which its
specification gives a value; where no specification function gives the error, or a
precondition excludes more than the panic, "Left out" names the precondition.

## Model

| member | source | states |
|---|---|---|
| Turing.ReadBlueprint | day25.go:37-116 | the reading loop over the blueprint's lines gives exactly what the line-by-line reading function gives: the start state, the step count and a state for every ten-line section, or the first line that fails to match |
| Turing.ReadRenderedBlueprint | day25.go:45-113 | a blueprint written out from a start state, a step count and well-formed state sections reads back as exactly that start state, step count and state table |
| Turing.ParseBlueprintOk | day25.go:45-60 | when the first line names the start state, the second gives the digits of the step count and the sections read, the blueprint reads as those three |
| Turing.ReadStartLine | day25.go:46-52 | `Begin in state X.` is read as the state name X |
| Turing.ReadStepsLine | day25.go:54-60 | `Perform a diagnostic checksum after N steps.` is read as the digits of N, whose value is N |
| Turing.ReadNumber | day25.go:60 | a number written in decimal reads back as the same number |
| Turing.ReadWriteLine | day25.go:81-85 | a branch's write line is read as the written value |
| Turing.ReadMoveLine | day25.go:88-99 | a branch's move line is read as the word left or right that names its direction |
| Turing.ReadContinueLine | day25.go:102-106 | a branch's continue line is read as the next state's name |
| Turing.ParseRenderedBranch | day25.go:80-108 | three rendered lines (write, move, continue) are read back as the same branch |
| Turing.ParseRenderedHeader | day25.go:69-76 | the first line of a rendered section is read as the section's state name |
| Turing.ParseRenderedSectionBranch | day25.go:79-109 | the branch lines at offsets 2 and 6 of a rendered section are read as its branches for 0 and 1 |
| Turing.ParseSectionsStep | day25.go:69-112 | reading a section stores its state under its name and carries on ten lines further |
| Turing.ParseRenderedSections | day25.go:68-113 | rendered sections read back as the map from their names to their states |
| Turing.FirstSectionParsed | day25.go:69-112 | the first rendered section is stored in the map and the reading carries on at the next section |
| Turing.RenderBlueprintLines | day25.go:45-68 | a rendered blueprint starts with its start line and its steps line, and its sections begin at line 3 |
| Turing.StepConfig | day25.go:148-159 | one step writes the branch's value under the head, changes no other cell, moves the head one cell right or left, goes to the branch's next state and counts one step down |
| Turing.Lookup | day25.go:149 | reading a state from the Go map gives the state stored under the name, or the zero state of an absent name; StepConfig uses it for the step's branch |
| Turing.StepKeepsBinary | day25.go:149-151 | when every branch writes 0 or 1, a tape of 0s and 1s stays so after a step, so the branch lookup always finds a branch |
| Turing.RunConfig | day25.go:161-165 | Run leaves no steps remaining when some were left, and leaves a binary tape binary |
| Turing.Iterate | day25.go:161-165 | n steps in a row keep a binary tape binary |
| Turing.RunDoesRemainingSteps | day25.go:161-165 | from n remaining steps Run does exactly n steps |
| Turing.RunUnfold | day25.go:162-163 | while steps remain, Run is one step followed by Run |
| Turing.ChecksumAfterWrite | day25.go:138-151 | writing v at a cell changes the number of cells holding 1 by one when the cell goes from 0 to 1 or back, and not at all otherwise |
| Turing.TuringMachine.constructor | day25.go:37-115 | a new machine holds the blueprint's states and start state, its step count, the head at 0 and a blank tape |
| Turing.TuringMachine.Step | day25.go:148-159 | the machine's new state is one step of its old state, and its states table is unchanged |
| Turing.TuringMachine.Run | day25.go:161-165 | the machine's new state is Run of its old state |
| Turing.TuringMachine.Checksum | day25.go:138-146 | the count is the number of tape cells holding 1, so cells written back to 0 do not count |
| Turing.ExampleSteps1to3 | day25_test.go:58-79 | the first three steps of the example machine give the states, positions, tape cells and remaining steps the test expects |
| Turing.ExampleSteps4to6 | day25_test.go:80-97 | the last three steps of the example machine give the states, positions, tape cells and remaining steps the test expects |
| Turing.ExampleRunFirstHalf | day25_test.go:119-126 | running the example from the start is running it from the state after three steps |
| Turing.ExampleRunSecondHalf | day25_test.go:119-126 | from the state after three steps, Run ends at the state after six steps |
| Turing.ExampleOnes | day25_test.go:114-115 | after six steps three cells hold 1 |
| Turing.ExampleRun | day25_test.go:119-126 | running the example machine ends with no steps remaining, the head at 0 and a checksum of 3 |
| Common.SumUpdate | day6_test.go:27-40 | replacing one element of a sequence changes its sum by the difference, which is how a redistribution keeps the block total |
| Text.IndexOf | day16_test.go:59-60 | bytes.IndexByte gives -1 exactly when the byte is absent, and otherwise the first index that holds it |
| Text.Split | day25.go:38 | strings.Split gives at least one part, and no part holds the separator |
| Text.JoinSplit | day25.go:38 | joining the parts of strings.Split with the separator gives back the text |
| Text.SplitJoin | day16_test.go:76 | splitting parts joined with a separator they do not hold gives back the parts |
| Text.JoinInjective | day6_test.go:71-77 | parts free of the separator are determined by their joined text |
| Text.Fields | day4_test.go:32 | strings.Fields gives non-empty fields without spaces, the first starting where the text does when it does not start with a space |
| Text.FieldsOfWord | day4_test.go:32 | a word followed by a space or by nothing is the first field |
| Text.FieldsJoin | day4_test.go:32 | strings.Fields gives back words joined with single spaces |
| Text.Atoi | day8_test.go:43 | strconv.Atoi accepts only non-empty text |
| Text.AtoiItoa | day6_test.go:74 | strconv.Atoi reads back what strconv.Itoa writes |
| Text.ItoaIsWord | day6_test.go:74 | strconv.Itoa writes one non-empty field without spaces |
| Text.ItoaInjective | day6_test.go:74 | different numbers are written differently |
| Text.NatToString | day25.go:60 | the decimal writing of a number is all digits, without leading zeros |
| Text.DigitsOfNatToString | day25.go:60 | the digits of a number's decimal writing have that number as their value |
| Text.RunLength | day25.go:64 | a class run is the longest prefix of class characters: all in the class, and the next character is not |
| Text.FindCapture | day25.go:46-48 | regexp.FindStringSubmatch of `prefix(class+)suffix` finds nothing exactly when the pattern matches nowhere; otherwise it gives the capture of the leftmost match, a non-empty run of class characters |
| Text.CaptureOfRendered | day25.go:46-48 | a prefix, a class word and a suffix that the word cannot run into are read back as that word |
| Text.FindPairNone | day16_test.go:33-34 | the pattern `lead(class+)sep(class+)` finds nothing exactly when it matches nowhere |
| Text.FindPairLeftmost | day16_test.go:33-34 | the pattern reports the captures of its leftmost match |
| Text.SplitOn | day7_test.go:108 | strings.Split on a multi-character separator gives at least one part |
| Text.JoinSplitOn | day7_test.go:108 | joining the parts back with the separator gives the text that was split |
| Text.SplitOnJoin | day7_test.go:108 | names joined with ", " split back into those names |
| Captcha.DigitValue | day1_spec.rb:9 | to_i of one character is its digit value, and 0 for a non-digit |
| Captcha.Digits | day1_spec.rb:8-10 | the input list has one number per character, each its to_i |
| Captcha.PartnerIndex | day1_spec.rb:39-49 | next_index_for is the following place, wrapping from the last to the first; jump_index_for is half the length further on, wrapping once |
| Captcha.CaptchaSolver.constructor | day1_spec.rb:8-10 | the solver holds the digits of its text |
| Captcha.CaptchaSolver.Solution1 | day1_spec.rb:12-16 | solution1 is the sum of the digits equal to the next digit, circularly |
| Captcha.CaptchaSolver.Solution2 | day1_spec.rb:18-22 | solution2 is the sum of the digits equal to the digit halfway round |
| Captcha.CaptchaSolver.SolveWith | day1_spec.rb:26-37 | the each_with_index loop returns the sum of the digits that match their partner |
| Captcha.MatchesBounds | day1_spec.rb:26-37 | each stretch of places contributes between 0 and the sum of its digits |
| Captcha.SolutionBounds | day1_spec.rb:26-37 | both solutions lie between 0 and the sum of all digits, and the empty input gives 0 |
| Captcha.MatchesSplit | day1_spec.rb:29-34 | the matches of a stretch are the matches of its two parts |
| Captcha.HalvesAgree | day1_spec.rb:44-49 | on an even length, the second half matches exactly as the first, since places i and i + n/2 are each other's partners |
| Captcha.Solution2Doubles | day1_spec.rb:18-22 | solution2 on an even-length input is twice the matches found in the first half |
| Captcha.ExampleSolution1Sums | day1_spec.rb:53 | 1122 gives 3 |
| Captcha.ExampleSolution1AllSame | day1_spec.rb:54 | 1111 gives 4 |
| Captcha.ExampleSolution1NoMatch | day1_spec.rb:55 | 1234 gives 0 |
| Captcha.ExampleSolution1WrapsAround | day1_spec.rb:56 | 91212129 gives 9 |
| Captcha.ExampleSolution2Sums | day1_spec.rb:58 | 1212 gives 6 |
| Captcha.ExampleSolution2NoMatch | day1_spec.rb:59 | 1221 gives 0 |
| Captcha.ExampleSolution2OnePair | day1_spec.rb:60 | 123425 gives 4 |
| Captcha.ExampleSolution2AllMatch | day1_spec.rb:61 | 123123 gives 12 |
| Captcha.ExampleSolution2Ones | day1_spec.rb:62 | 12131415 gives 4 |
| Spreadsheet.MaxIsLargest | day2_test.go:46-56 | the running maximum of a non-empty row is one of its cells and no cell exceeds it |
| Spreadsheet.MinIsSmallest | day2_test.go:46-56 | the running minimum of a non-empty row is one of its cells and no cell is below it |
| Spreadsheet.RowChecksum | day2_test.go:45-58 | the row checksum is defined exactly when the row has a first cell; an empty row panics |
| Spreadsheet.RowChecksumIsSpread | day2_test.go:45-58 | the row checksum is the difference of two of the row's cells, bounds the difference of any two, and is never negative |
| Spreadsheet.ComputeRowChecksum | day2_test.go:45-58 | the max/min loop returns the row checksum, or the panic for an empty row |
| Spreadsheet.Scan2 | day2_test.go:71-82 | the pair scan only panics when a cell in the divisor position is zero |
| Spreadsheet.RowChecksum2 | day2_test.go:68-83 | checksum2 of a row is the pair scan from the first two cells; RowChecksum2IsFirstQuotient and ZeroFirstCellPanics state its result |
| Spreadsheet.PairQuotient | day2_test.go:74-79 | a pair gives a quotient exactly when one of its cells divides the other, and the quotient multiplies the smaller back to the larger |
| Spreadsheet.ScanPartners | day2_test.go:73-80 | the inner loop either returns the scan's result from cell jcell or hands the scan on to cell jcell + 1 unchanged |
| Spreadsheet.ComputeRowChecksum2 | day2_test.go:68-83 | the nested loops return checksum2 of the row, including 0 when no pair divides and the panic on a zero divisor |
| Spreadsheet.ScanFindsFirstPair | day2_test.go:71-82 | from any point of the scan with no dividing pair before it, the scan returns the quotient of the first dividing pair after it, or 0 when there is none |
| Spreadsheet.RowChecksum2IsFirstQuotient | day2_test.go:68-83 | for a row of non-zero cells checksum2 is 0 exactly when no two cells divide evenly, and otherwise the quotient of the first such pair in scan order |
| Spreadsheet.ZeroFirstCellPanics | day2_test.go:72-75 | a zero first cell followed by another cell is a division by zero |
| Spreadsheet.Total | day2_test.go:60-66 | the sum of the row checksums is defined exactly when every row's checksum is |
| Spreadsheet.TotalAppend | day2_test.go:60-66 | the total of two lists of checksums is the sum of their totals |
| Spreadsheet.RowChecksums | day2_test.go:62-64 | one checksum per row |
| Spreadsheet.RowChecksums2 | day2_test.go:87-89 | one checksum2 per row |
| Spreadsheet.SheetChecksum | day2_test.go:60-66 | Spreadsheet.checksum is the total of the row checksums; SheetChecksumDefined and SheetChecksumNonNegative state when it is defined and its sign |
| Spreadsheet.SheetChecksumDefined | day2_test.go:60-66 | Spreadsheet.checksum panics exactly when some row has no cells, and is never negative otherwise |
| Spreadsheet.SheetChecksumNonNegative | day2_test.go:60-66 | a sheet whose rows all have cells has a non-negative checksum |
| Spreadsheet.SheetChecksumsAppend | day2_test.go:60-91 | stacking two sheets adds their checksums and their checksum2s |
| Spreadsheet.ComputeSheetChecksum | day2_test.go:60-66 | the row loop returns the sheet checksum |
| Spreadsheet.SheetChecksum2 | day2_test.go:85-91 | checksum2 of the sheet panics exactly when checksum2 of one of its rows panics; SheetChecksumsAppend states that stacking sheets adds their values |
| Spreadsheet.ComputeSheetChecksum2 | day2_test.go:85-91 | the row loop returns the sheet checksum2 |
| Spreadsheet.ParseCells | day2_test.go:24-30 | each cell is the Atoi of its descriptor, in order, and the parse fails only when some descriptor is not an integer |
| Spreadsheet.ParseRows | day2_test.go:35-41 | one row per line, and the parse fails exactly when a non-blank line has a descriptor that is not an integer |
| Spreadsheet.NewSpreadsheetRow | day2_test.go:21-32 | the loop builds the row the tab-separated descriptors describe, or panics |
| Spreadsheet.NewSpreadsheet | day2_test.go:34-43 | the loop builds the sheet the lines describe, blank lines as empty rows, or panics |
| Spreadsheet.ParseDescriptors | day2_test.go:24-30 | the descriptors written for a list of cells parse back to those cells |
| Spreadsheet.RowRoundTrip | day2_test.go:21-32 | a row with cells is read back from its tab-separated line |
| Spreadsheet.ParseRenderedRows | day2_test.go:35-41 | the lines written for a list of rows parse back to those rows |
| Spreadsheet.SheetRoundTrip | day2_test.go:34-43 | a spreadsheet is read back from its text, blank rows included |
| Spreadsheet.ExampleRowChecksums | day2_test.go:96-100 | the rows 5 1 9 5, 7 5 3 and 2 4 6 8 have checksums 8, 4 and 6 |
| Spreadsheet.ExampleRowChecksums2 | day2_test.go:104-108 | the rows 5 9 2 8, 9 4 7 3 and 3 8 6 5 have checksum2s 4, 3 and 2 |
| Spreadsheet.ExampleSheetChecksum | day2_test.go:113-118 | the first test sheet is read from its text and its checksum is 18 |
| Spreadsheet.ExampleSheetChecksum2 | day2_test.go:123-128 | the second test sheet is read from its text and its checksum2 is 9 |
| Spiral.ManhattanDistance | day3_test.go:17-19 | the distance is 0 exactly at the origin and at least the size of each coordinate |
| Spiral.MoveFacts | day3_test.go:33-35 | a move changes nothing exactly when it is by the origin, the opposite move undoes it, and the distance grows by at most the move's own distance |
| Spiral.OddRootFrom | day3_test.go:24-31 | the loop from an odd j stops at an odd root whose square reaches the number, and the odd number before it does not |
| Spiral.OddRootIs | day3_test.go:24-31 | any odd root whose square reaches the number while the one before does not is the one findNearestOddSquare finds |
| Spiral.FindNearestOddSquare | day3_test.go:24-31 | the counting loop returns that odd root |
| Spiral.SideOffsetIsMod | day3_test.go:67 | the source's offset `(location - 1) % (root - 1)` is the position along the side of the ring |
| Spiral.LocationToCoordinates | day3_test.go:58-88 | locationToCoordinates: square 1 is the origin, and a later square is placed on the side of its ring its distance from the ring's last square gives; LocationRing, CornerOfSquare, LocationOfCoordinates and LocationToCoordinatesInjective state what it gives |
| Spiral.OnRingOf | day3_test.go:58-89 | a square after the first lies on the ring whose last square is its odd root squared, and its coordinates are those of its place on that ring |
| Spiral.OnRingInverse | day3_test.go:38-89 | the coordinates of a square on ring m lie on ring m and are numbered back to the square |
| Spiral.LocationRing | day3_test.go:58-89 | square 1 is the origin, and every later square lies on ring (root - 1) / 2 |
| Spiral.CornerOfSquare | day3_test.go:69-71 | the last square of each ring is its bottom-right corner |
| Spiral.LocationOfCoordinates | day3_test.go:38-89 | numbering the coordinates of a square gives the square back |
| Spiral.CoordinatesOfLocationOf | day3_test.go:38-89 | every grid point is some square, after the previous ring's last square and at most its own ring's last |
| Spiral.LocationToCoordinatesInjective | day3_test.go:58-89 | different squares have different coordinates |
| Spiral.DistanceToLocation | day3_test.go:91-93 | distanceToLocation is the Manhattan distance of the square's coordinates; DistanceBounds states its range |
| Spiral.LocationOf | day3_test.go:38-55 | the closed-form number of the square at given coordinates, against which Location's brute-force loop is proved; OnRingInverse, LocationOfCoordinates and CoordinatesOfLocationOf state it inverts locationToCoordinates |
| Spiral.DistanceBounds | day3_test.go:91-93 | a square's distance lies between its ring and twice its ring, and square 1's is 0 |
| Spiral.Location | day3_test.go:38-56 | location returns 1 at the origin and otherwise the square whose coordinates are c, so the -1 after the loop is never reached |
| Spiral.ExampleMove | day3_test.go:98-109 | moving (11, 22) by (-1, 5) gives (10, 27), and (11, -5) is 16 from the origin |
| Spiral.ExampleFirstRing | day3_test.go:147-154 | squares 2 to 9 have the coordinates the test lists |
| Spiral.ExampleOuterSquares | day3_test.go:170-171 | square 25 is (2, -2) and 26 is (3, -2) |
| Spiral.ExampleLocations | day3_test.go:125-139 | (2, 1), (-2, 2), (0, -2) and (3, -2) are squares 12, 17, 23 and 26 |
| Spiral.ExampleDistances | day3_test.go:189-200 | squares 12 and 23 are 3 and 2 from the origin |
| Spiral.ExampleDistance1024 | day3_test.go:206 | square 1024 is 31 from the origin |
| Spiral.ExampleOddRoots | day3_test.go:210-219 | the odd roots of 1, 2, 9, 10, 24, 25 and 26 are 1, 3, 3, 5, 5, 5 and 7 |
| Passphrase.Insert | day4_test.go:15-25 | inserting a letter at i lengthens the word by one with that letter at i |
| Passphrase.InsertedLetters | day4_test.go:15-25 | inserting a letter adds exactly that letter to the word's letters |
| Passphrase.RemoveInsert | day4_test.go:15-25 | taking out the letter at i and putting it back gives the word again |
| Passphrase.Permutations | day4_test.go:15-25 | the orderings of a word's letters, built by inserting the first letter at every place of every ordering of the rest; PermutationsAreReorderings states they are exactly the rearrangements |
| Passphrase.PermutationsAreAnagrams | day4_test.go:15-25 | every permutation has the same letters as the word |
| Passphrase.AnagramsArePermutations | day4_test.go:15-25 | every rearrangement of the word's letters is among its permutations |
| Passphrase.PermutationsAreReorderings | day4_test.go:15-25 | permutations(w) holds exactly the words with w's letters, counted with multiplicity |
| Passphrase.Valid2IsStricter | day4_test.go:29-56 | a phrase with a repeated word also has two anagrams, so isValid2 never accepts what isValid rejects |
| Passphrase.IsValid | day4_test.go:29-40 | isValid's loop over the fields with a set of words seen is true exactly when no field repeats |
| Passphrase.RemembersStep | day4_test.go:45-53 | adding a word and its permutations to the set keeps it holding exactly the anagrams of the words seen |
| Passphrase.IsValid2 | day4_test.go:42-56 | isValid2's loop is true exactly when no two fields are anagrams of each other |
| Passphrase.EmptyPhraseIsValid | day4_test.go:29-56 | a phrase without words is valid under both policies |
| Passphrase.CountFromIsMultiplicity | day4_test.go:15-25 | counting a letter from position k gives its multiplicity in the rest of the word |
| Passphrase.CountsAgreeIsAnagrams | day4_test.go:15-25 | two words are anagrams exactly when every letter occurs as often in both |
| Passphrase.PairwiseCheck | day4_test.go:42-56 | comparing every pair of fields decides the second policy |
| Passphrase.PermutationsOfOne | day4_test.go:61 | a one-letter word has itself as its only permutation |
| Passphrase.PermutationsOfTwo | day4_test.go:62 | a two-letter word has itself and its reverse |
| Passphrase.PermutationsOfThree | day4_test.go:63 | three different letters have exactly their six orderings |
| Passphrase.ExamplePermutations | day4_test.go:59-65 | permutations of "a", "ab" and "abc" are {"a"}, {"ab", "ba"} and six words |
| Passphrase.ExamplePhraseAllDistinct | day4_test.go:70-78 | "aa bb cc dd ee" is valid under both policies |
| Passphrase.ExamplePhraseRepeated | day4_test.go:71-79 | "aa bb cc dd aa" is invalid under both |
| Passphrase.ExamplePhraseLongerWord | day4_test.go:72-80 | "aa bb cc dd aaa" is valid under both |
| Passphrase.ExamplePhraseTwoWords | day4_test.go:82 | "abcde fghij" is valid under the second policy |
| Passphrase.ExamplePhraseRearranged | day4_test.go:83 | "abcde xyz ecdab" is invalid under the second policy |
| Passphrase.ExamplePhrasePrefixes | day4_test.go:84 | "a ab abc abd abf abj" is valid under the second policy |
| Passphrase.ExamplePhraseLetterCounts | day4_test.go:85 | "iiii oiii ooii oooi oooo" is valid under the second policy |
| Passphrase.ExamplePhraseShifted | day4_test.go:86 | "oiii ioii iioi iiio" is invalid under the second policy |
| Trampoline.ParseFields | day5_test.go:21-27 | the fields are read in order, and the reading succeeds exactly when every field is an integer |
| Trampoline.Render | day5_test.go:21-27 | one decimal word per offset |
| Trampoline.ParseFieldsRender | day5_test.go:21-27 | reading the decimal forms of the offsets back gives them again |
| Trampoline.ParseOffsetsRoundTrip | day5_test.go:19-29 | any non-empty list of offsets, written space-separated, is read back by NewCpuTrampolineMaze as itself |
| Trampoline.Land | day5_test.go:36-57 | the address after a jump is below the length, and not negative exactly when the jump lands inside the list |
| Trampoline.Jump | day5_test.go:31-39 | one tick: the cell at the address goes up by one and the address moves by the old value; TickEffects, TickUsesRoom and TickKeepsRoomBound state its effect |
| Trampoline.Jump2 | day5_test.go:47-59 | one tick2: a cell of 3 or more goes down by one, any other up by one, and the address moves by the old value; TickEffects and Tick2Progress state its effect |
| Trampoline.TickEffects | day5_test.go:31-59 | tick and tick2 add one step, jump by the old cell value, change only the cell at the old address (tick by +1, tick2 by -1 from 3 up and +1 below), and leave exactly when the jump lands outside |
| Trampoline.RoomIncrement | day5_test.go:34 | incrementing a cell below n uses one unit of the room below n |
| Trampoline.TickUsesRoom | day5_test.go:31-45 | a tick that stays inside uses up room, one that leaves makes the address negative, so run's loop ends |
| Trampoline.TickKeepsRoomBound | day5_test.go:31-39 | a tick never adds room |
| Trampoline.RoomAtOrAbove | day5_test.go:50-51 | lowering a cell that stays at or above n keeps the room below n |
| Trampoline.Escape | day5_test.go:41-45 | run stops, with a negative address, as many cells and no fewer steps |
| Trampoline.RunStep | day5_test.go:41-45 | run is one tick followed by run |
| Trampoline.Tick2Progress | day5_test.go:47-59 | every tick2 that stays inside either uses up room below 1 or, keeping it, jumps forward, so run2's loop ends |
| Trampoline.Escape2 | day5_test.go:61-65 | run2 stops, with a negative address, as many cells and no fewer steps |
| Trampoline.Run2Bounded | day5_test.go:50-54 | no cell ever rises above the larger of 3 and the largest starting offset |
| Trampoline.Run2Step | day5_test.go:61-65 | run2 is one tick2 followed by run2 |
| Trampoline.RunCountsTicks | day5_test.go:31-45 | run ends after as many steps as it made jumps |
| Trampoline.CpuTrampolineMaze.constructor | day5_test.go:19-29 | NewCpuTrampolineMaze holds the offsets read from the text, at address 0 with no steps |
| Trampoline.CpuTrampolineMaze.Tick | day5_test.go:31-39 | the maze after tick is one jump of the maze before |
| Trampoline.CpuTrampolineMaze.Run | day5_test.go:41-45 | the maze after run is Escape of the maze before |
| Trampoline.CpuTrampolineMaze.Tick2 | day5_test.go:47-59 | the maze after tick2 is one second-policy jump of the maze before |
| Trampoline.CpuTrampolineMaze.Run2 | day5_test.go:61-65 | the maze after run2 is Escape2 of the maze before |
| Trampoline.ExampleRender | day5_test.go:72 | the example's offsets written out are "0", "3", "0", "1", "-3" |
| Trampoline.ExampleParse | day5_test.go:72-78 | "0 3 0 1 -3" is read as 0, 3, 0, 1, -3 |
| Trampoline.ExampleTicks | day5_test.go:76-104 | the five ticks the test steps through, cells, address and steps |
| Trampoline.ExampleRun | day5_test.go:106-114 | run on the example ends at 2 5 0 1 -2, address -1, after 5 steps |
| Trampoline.ExampleTicks2 | day5_test.go:117-122 | the first five ticks of run2 on the example |
| Trampoline.ExampleTicks2Later | day5_test.go:117-122 | the last five ticks of run2 on the example |
| Trampoline.ExampleRun2 | day5_test.go:117-122 | run2 on the example ends at 2 3 2 3 -1 after 10 steps |
| MemoryBanks.IndexOfLargest | day6_test.go:57-69 | the index found is -1 or one holding a value of at least 0 |
| MemoryBanks.IndexOfLargestIsFirstMax | day6_test.go:57-69 | the index is -1 exactly when every value is below 0; otherwise it holds the maximum and every earlier value is smaller, so ties go to the lower index |
| MemoryBanks.FirstMaxIsIndexOfLargest | day6_test.go:57-69 | the first index of a maximum that is at least 0 is the index found (the converse direction) |
| MemoryBanks.FindIndexOfLargest | day6_test.go:57-69 | the scanning loop returns the index the specification function names |
| MemoryBanks.Deal | day6_test.go:32-39 | dealing blocks one per bank keeps the number of banks |
| MemoryBanks.DealAt | day6_test.go:32-39 | after dealing, every bank holds its old blocks plus blocks / n, and the blocks % n banks next after the start hold one more |
| MemoryBanks.DealSum | day6_test.go:32-39 | dealing adds exactly the dealt blocks to the total |
| MemoryBanks.DealGrows | day6_test.go:32-39 | dealing takes no block from any bank |
| MemoryBanks.Reallocate | day6_test.go:27-40 | a tick keeps the number of banks |
| MemoryBanks.ReallocateDeals | day6_test.go:27-40 | a tick empties the largest bank and deals its blocks from the next index on |
| MemoryBanks.ReallocateAt | day6_test.go:27-40 | after a tick the largest bank holds b / n and every other bank its old blocks plus b / n, plus one for the b % n banks following the largest |
| MemoryBanks.ReallocateIs | day6_test.go:27-40 | a configuration that matches the closed form bank by bank is the tick's result |
| MemoryBanks.ReallocateKeepsTotal | day6_test.go:27-40 | a tick keeps the total number of blocks |
| MemoryBanks.ReallocateKeepsValid | day6_test.go:27-40 | a tick keeps a non-empty configuration of non-negative banks so, and can always be applied to one |
| MemoryBanks.Iter | day6_test.go:46-54 | the configuration after k ticks is valid and has as many banks |
| MemoryBanks.IterKeepsTotal | day6_test.go:46-54 | any number of ticks keeps the total number of blocks |
| MemoryBanks.IterStep | day6_test.go:46-54 | the configuration after k + 1 ticks is a tick of the one after k |
| MemoryBanks.IterInSpace | day6_test.go:42-55 | every configuration debug reaches lies in one finite set, so debug ends |
| MemoryBanks.MakeKeyFrom | day6_test.go:71-77 | the loop builds the key the specification function names |
| MemoryBanks.KeyInjective | day6_test.go:71-77 | different configurations get different keys, so the cache recognises a configuration exactly |
| MemoryBanks.RepeatFound | day6_test.go:47-50 | a key found in the cache means the current tick is the first repeat |
| MemoryBanks.NewState | day6_test.go:47-53 | a key not in the cache means a new configuration, and caching it keeps the seen configurations and their keys in step |
| MemoryBanks.FirstRepeatUnique | day6_test.go:42-55 | the first repeat is unique, so debug's answer is determined by the starting configuration |
| MemoryBanks.TraceIsIter | day6_test.go:42-55 | a sequence of configurations each a tick of the one before is the sequence of iterates |
| MemoryBanks.FirstRepeatOfTrace | day6_test.go:42-55 | when the last configuration of a trace repeats an earlier one and the others are distinct, its length is the first repeat |
| MemoryBanks.ParseBanks | day6_test.go:18-25 | the banks are one per field of the declaration |
| MemoryBanks.MemoryBankSet.constructor | day6_test.go:18-25 | a new bank set holds the banks read from the declaration in a fresh array |
| MemoryBanks.MemoryBankSet.Tick | day6_test.go:27-40 | the banks after tick are the reallocation of the banks before |
| MemoryBanks.MemoryBankSet.Debug | day6_test.go:42-55 | debug leaves the banks at the configuration after the returned number of ticks, and that number is the first tick whose configuration was seen after an earlier tick |
| MemoryBanks.ExampleFind | day6_test.go:80-86 | findIndexOfLargest of 1 3 5 7 3, 1 7 5 3 3 and 1 7 5 7 3 is 3, 1 and 1 |
| MemoryBanks.ExampleKey | day6_test.go:88-92 | makeKeyFrom of 1 3 5 7 3 is "1,3,5,7,3" |
| MemoryBanks.ExampleTick1 | day6_test.go:103-107 | a tick of 0 2 7 0 gives 2 4 1 2 |
| MemoryBanks.ExampleTick2 | day6_test.go:109-110 | a tick of 2 4 1 2 gives 3 1 2 3 |
| MemoryBanks.ExampleTick3 | day6_test.go:112-113 | a tick of 3 1 2 3 gives 0 2 3 4 |
| MemoryBanks.ExampleTick4 | day6_test.go:115-116 | a tick of 0 2 3 4 gives 1 3 4 1 |
| MemoryBanks.ExampleTick5 | day6_test.go:118-119 | a tick of 1 3 4 1 gives 2 4 1 2 |
| MemoryBanks.ExampleDebug | day6_test.go:123-133 | debug on 0 2 7 0 answers 5: the configuration after tick 5 is the one after tick 1, and the others differ |
| Tower.Weights | day7_test.go:47-48 | one recursive weight per child, in order |
| Tower.RecursiveWeightIsTotal | day7_test.go:23-29 | recursiveWeight is the total weight of every program in the tower |
| Tower.ListWeightsTotal | day7_test.go:23-29 | the children's recursive weights add up to the total weight of their towers |
| Tower.RecursiveWeightOf | day7_test.go:23-29 | recursiveWeight's loop returns the recursive weight of the tower |
| Tower.BucketsCount | day7_test.go:46-55 | childWeightMap has a key for each weight present, counting its occurrences |
| Tower.OneBucket | day7_test.go:56-58 | childWeightMap has one key exactly when every child's tower weighs the same |
| Tower.FirstWith | day7_test.go:69-73 | the search finds the first child at or after the start whose tower weighs w, and none when no such child exists |
| Tower.FirstFound | day7_test.go:38-43 | the depth-first loop passes up the first child that reports a program, and none when no child does |
| Tower.FirstFoundIs | day7_test.go:38-43 | a reporting child with no reporting child before it is the one found |
| Tower.FirstWithIs | day7_test.go:69-73 | a child of weight w with none before it is the one found |
| Tower.PickStep | day7_test.go:62-68 | each key visited replaces the problem weight when its count is 1 and the right weight otherwise |
| Tower.LocalFoundIff | day7_test.go:60-75 | once the weights are picked, the search finds a child exactly when the comparison at this program reports one |
| Tower.OutcomeFound | day7_test.go:31-76 | weightCheck returns a program exactly when some comparison in the tower reports one |
| Tower.WeightCheck | day7_test.go:31-76 | weightCheck returns nil, -1 on a leaf, the first child's report otherwise, nil, -2 when the children balance, the outlier and its corrected weight, or nil, -3 when no child has the picked weight |
| Tower.ChildWeightMap | day7_test.go:46-55 | the bucketing loop builds the map of each recursive weight to its number of children |
| Tower.PickWeights | day7_test.go:61-68 | the loop over the map, in any order, leaves a weight counted once as problemWeight and a weight counted otherwise as okWeight |
| Tower.FindOutlier | day7_test.go:69-75 | the final search returns the first child of the problem weight with its own weight moved by the difference, or nil, -3 |
| Tower.ReportedNode | day7_test.go:31-76 | the reported program is a child of a program inside the tower whose own children all check out but whose children's towers differ in weight |
| Tower.Corrected | day7_test.go:60-73 | when the children check out and exactly one child's tower weighs p while the others weigh o, weightCheck reports that child, and the weight it returns brings the child's tower to o |
| Tower.ParseLine | day7_test.go:88-111 | a line matching the regexp gives a name of word characters and a non-negative weight |
| Tower.ArrowOf | day7_test.go:88-111 | the text after " -> " splits on ", " into the children listed |
| Tower.ParseParts | day7_test.go:88-102 | a name, " (", a decimal weight and ")" read back as that name and weight |
| Tower.ParseRender | day7_test.go:88-111 | every line written in the description format reads back as itself |
| Tower.Parsed | day7_test.go:97-113 | the first loop parses the non-empty lines, at most one line each |
| Tower.StoreAllSnoc | day7_test.go:97-113 | storing one more line stores it on top of the lines before |
| Tower.Naming | day7_test.go:104-110 | the lines naming a program, in order |
| Tower.StoreAllProgram | day7_test.go:104-110 | a stored program has the weight of the last line naming it and the children of all those lines, in order |
| Tower.NoneNaming | day7_test.go:104-105 | a program not stored is named by no line |
| Tower.StoreAllKeys | day7_test.go:104-105 | a program is stored exactly when some line names it |
| Tower.StoreAllDistinct | day7_test.go:97-113 | lines with distinct names store each program exactly as its line gives it |
| Tower.StoreAllOnly | day7_test.go:97-113 | only programs some line names are stored |
| Tower.Link | day7_test.go:115-126 | the linking loop, in any map order, gives a parent to exactly the programs some program lists as a child |
| Tower.LinkStep | day7_test.go:118-125 | linking one more child adds it to the programs that have a parent |
| Tower.FindRoot | day7_test.go:128-135 | the root loop returns a program with no parent, and nil only when every program has one |
| Tower.NewProgramTree | day7_test.go:90-136 | NewProgramTree stores the parsed lines, links them, and returns a program without a parent, or nil when there is none |
| Tower.UnfoldsUnique | day7_test.go:115-126 | the parent and child pointers determine the tower below a program |
| Tower.DescribeLines | day7_test.go:91 | splitting a written description on newlines gives its lines and the empty line after the last newline |
| Tower.DescribeParsed | day7_test.go:91-113 | a written description parses back, line for line, into the lines written |
| Tower.RenderedParsed | day7_test.go:97-113 | the lines of a written description parse back into the lines written |
| TowerExamples.ExampleStored | day7_test.go:97-154 | the first loop stores the example's thirteen programs |
| TowerExamples.ExampleRoot | day7_test.go:128-151 | tknk is the only program no line lists as a child, so it is the root whichever order the map is visited in |
| TowerExamples.ExampleNewProgramTree | day7_test.go:162-171 | NewProgramTree on the example gives its programs, and tknk, weighing 41, as the root over ugml, padx and fwft |
| TowerExamples.ExampleUnfolds | day7_test.go:162-171 | the pointers from tknk lead to the example tower |
| TowerExamples.OverThreeLeaves | day7_test.go:23-29 | a program over three leaves weighs its own weight plus theirs |
| TowerExamples.ShapeWeights | day7_test.go:173-183 | the recursive weights of tknk's children are ugml 251, padx 243 and fwft 243 |
| TowerExamples.ShapeChildrenBalanced | day7_test.go:31-58 | each of tknk's children holds up leaves of one weight, so none of them reports |
| TowerExamples.ShapeCheck | day7_test.go:185-195 | weightCheck on a tower of the example's shape reports ugml, which should weigh 60 |
| TowerExamples.ExampleWeights | day7_test.go:173-183 | the recursive weights of tknk's children in the example are 251, 243, 243 |
| TowerExamples.ExampleWeightCheck | day7_test.go:185-195 | weightCheck on the example tower returns ugml and 60 |
| Registers.MatchInstruction | day8_test.go:14 | instructionRe's six captures are runs of word characters (operands may hold `-`) and a comparator without a newline |
| Registers.MatchSound | day8_test.go:14 | the captures instructionRe finds, written out with their separators, are the whole instruction |
| Registers.MatchRendered | day8_test.go:14 | a well-formed line written out is matched and gives back its own six fields |
| Registers.MatchExactly | day8_test.go:14 | instructionRe matches a text exactly when the text is some well-formed line written out |
| Registers.ExecutedText | day8_test.go:30-34 | execInstruction on the text: the match first, then Executed on the captures; ExecutedRendered and UnmatchedPanics state what it gives |
| Registers.ExecutedRendered | day8_test.go:30-100 | on the text of a well-formed line, execInstruction does what Executed says of the line's fields |
| Registers.UnmatchedPanics | day8_test.go:31-34 | a text that is no well-formed line written out panics whatever the registers |
| Registers.ExampleMatch | day8_test.go:115 | `a inc 1 if b < 5` is matched with the captures a, inc, 1, b, < and 5 |
| Registers.ExampleNoMatch | day8_test.go:31-34 | `a inc 1`, which stops after the operand, is not matched, so execInstruction panics on it |
| Registers.Lookup | day8_test.go:57 | reading a register from the Go map gives its value, or 0 when it is absent; Ensured and Executed state what it reads after each step |
| Registers.Ensured | day8_test.go:23-28 | after ensureRegister the name is present, every register present before keeps its value, and every register reads as before |
| Registers.Compare | day8_test.go:56-86 | the six comparators decide `value <comparator> operand` by its sign, and any other comparator is recognised by none |
| Registers.CompareNegated | day8_test.go:59-83 | the six comparators come in complementary pairs: < and >=, <= and >, == and != |
| Registers.Apply | day8_test.go:92-99 | only inc and dec are recognised |
| Registers.ApplyInverse | day8_test.go:93-96 | dec undoes inc, and dec by n is inc by -n |
| Registers.Panics | day8_test.go:36-100 | the cases where execInstruction panics on its captures: an operand that is not an integer, an unknown comparator, or a predicate that holds with an op that is neither inc nor dec; Executed states it is exactly where execInstruction gives no registers |
| Registers.Executed | day8_test.go:36-100 | on the six captures, execInstruction panics exactly where an operand is not an integer, the comparator is unknown, or the predicate holds and the op is neither inc nor dec; otherwise it creates the target and the predicate's register, and changes only the target, by the operand, when the predicate holds |
| Registers.ExecutedAll | day8_test.go:30-100 | running lines in order keeps every register |
| Registers.ExecutedAllAppend | day8_test.go:30-100 | running two batches one after the other is running them joined |
| Registers.RegisterSet.constructor | day8_test.go:18-21 | a new register set is empty |
| Registers.RegisterSet.EnsureRegister | day8_test.go:23-28 | the registers after ensureRegister are Ensured of those before |
| Registers.RegisterSet.ExecInstruction | day8_test.go:30-100 | the method succeeds exactly where ExecutedText does (a text instructionRe does not match fails), and then leaves its registers |
| Registers.RegisterSet.ExecLine | day8_test.go:36-100 | on the captures, the method succeeds exactly where Executed does, and then leaves its registers |
| Registers.ExampleCreates | day8_test.go:112-120 | `a inc 1 if b < 5` on no registers creates a and b, with a = 1 and b = 0 |
| Registers.ExampleStateful | day8_test.go:210-217 | the stateful test's lines leave a at 0 and then at 1 |
| Registers.RegisterSet.TestPredicate | day8_test.go:56-86 | the switch on the comparator knows exactly the six comparators and then gives Compare's verdict |
| Stream.GarbageClose | day9_test.go:49-64 | the garbage scan stops at a `>` at or after its start, or at -1 when the stream ends first |
| Stream.ParseGarbage | day9_test.go:49-64 | the loop of parseGarbage returns where the garbage scan stops, a `!` skipping the next character |
| Stream.GarbageRoundTrip | day9_test.go:49-64 | on rendered garbage, whatever follows, parseGarbage returns the index of its closing `>` |
| Stream.GarbageCharsScan | day9_test.go:54-62 | the garbage scan runs over rendered garbage characters, plain or cancelled, to the `>` after them |
| Stream.GroupOutcome | day9_test.go:25-47 | a group that returns closes at a `}` inside the stream |
| Stream.GroupScan | day9_test.go:31-46 | the loop of parseGroup from an index closes, if it does, at a `}` at or after that index |
| Stream.ParseGroup | day9_test.go:25-47 | parseGroup, where it returns, returns the score and length of the group's outcome; a stream that ends inside a child or inside garbage never returns, and is required away |
| Stream.Score | day9_test.go:19-22 | score is the score parseGroup gives the outermost group at depth 1 |
| Stream.GroupRoundTrip | day9_test.go:25-47 | on a rendered group, whatever follows, parseGroup returns the group's score (its depth plus its children's scores) and the index of its closing `}` |
| Stream.ItemsScan | day9_test.go:31-46 | the group loop runs over rendered items, adding their scores, to just past them |
| Stream.ItemScan | day9_test.go:32-45 | the group loop steps over one rendered child, garbage or other character, adding its score |
| Stream.FirstItemScan | day9_test.go:32-45 | the group loop steps over the first of the rendered items, and the others follow |
| Stream.EmptyChild | day9_test.go:33-34 | a `{}` closes at index 1 and scores its depth |
| Stream.ExampleSiblings | day9_test.go:72 | `{{},{}}` scores 5 |
| Stream.ExampleNestedInner | day9_test.go:73 | the middle group of `{{{},{},{{}}}}` read from index 1 scores 15 |
| Stream.ExampleNestedLast | day9_test.go:73 | the last child of that group scores 7 |
| Stream.ExampleNested | day9_test.go:73 | `{{{},{},{{}}}}` scores 16 |
| Stream.ExampleCancelled | day9_test.go:80 | in `{{<a!>},{<a!>},{<a!>},{<ab>}}` every `>` but the last is cancelled, so one garbage runs to the last `>` and the stream scores 3 |
| Stream.StreamCancelled | day9_test.go:80 | the stream of that example is the test's string `{{<a!>},{<a!>},{<a!>},{<ab>}}` |
| Stream.CancelledGarbage | day9_test.go:80 | the garbage `<a!>},{<a!>},{<a!>},{<ab>` is well formed: three cancelled `>` and then `ab` |
| Stream.NestedGarbageOutcome | day9_test.go:25-47 | a group holding one group that holds only garbage scores 1 + 2 and closes at its last character |
| Stream.FourOutcome | day9_test.go:25-47 | a group of four comma-separated copies of an item scores its depth plus four times the item's score one level down |
| Stream.FourOfGroup | day9_test.go:25-47 | such a group is well formed and renders as the four copies |
| Stream.GarbageAppend | day9_test.go:54-62 | two runs of garbage characters render one after the other |
| Stream.ExampleEmpty | day9_test.go:70 | `{}` scores 1 |
| Stream.ExampleThreeDeep | day9_test.go:71 | `{{{}}}` scores 1 + 2 + 3 = 6 |
| Stream.ExampleGarbage | day9_test.go:77 | four garbage items in one group score 1, garbage scoring nothing |
| Stream.StreamGarbage | day9_test.go:77 | that stream is the test's string `{<a>,<a>,<a>,<a>}` |
| Stream.ExampleGarbageInGroups | day9_test.go:78 | four groups each holding `<ab>` in one group score 9 |
| Stream.StreamGarbageInGroups | day9_test.go:78 | that stream is the test's string `{{<ab>},{<ab>},{<ab>},{<ab>}}` |
| Stream.ExampleCancelledBang | day9_test.go:79 | four groups each holding `<!!>` score 9, the `!!` cancelling itself so that `>` closes the garbage |
| Stream.StreamCancelledBang | day9_test.go:79 | that stream is the test's string `{{<!!>},{<!!>},{<!!>},{<!!>}}` |
| Stream.GroupScore | day9_test.go:25-47 | a group's score is its depth plus its children's scores one level down; GroupRoundTrip proves parseGroup returns it |
| Stream.ExampleUnterminated | day9_test.go:25-64 | a bare `{` returns (-1, -1), an unclosed child or garbage never returns, and unterminated garbage gives -1 |
| KnotHash.Iota | day10_test.go:18-24 | the list of a new hash holds 0 to n - 1 in order |
| KnotHash.CircularReverse | day10_test.go:43-72 | reversing a circular window inside the list keeps the list's length |
| KnotHash.CircularReverseAt | day10_test.go:43-72 | inside the circular window each position holds the element mirrored across the window, and every other position keeps its element |
| KnotHash.CircularReverseIs | day10_test.go:43-72 | a list that agrees with that description position by position is the reversal, both as CircularReverse and as Twist |
| KnotHash.CircularReversePermutes | day10_test.go:43-72 | reversing a window keeps the list a permutation of what it was |
| KnotHash.ShortWindowUnchanged | day10_test.go:44-46 | a window of length 0 or 1 leaves the list as it was |
| KnotHash.Twist | day10_test.go:50-69 | reversing a window of any length up to twice round the list keeps the list's length |
| KnotHash.Reversal | day10_test.go:43-72 | reverseSubSlice on any start and length: the list as it is for a length of at most 1, a panic (None) on a bad slice bound, otherwise the reversed window, of the list's length |
| KnotHash.ReversalPanics | day10_test.go:43-72 | reverseSubSlice panics exactly when the length is at least 2 and the start is negative or past the end, or start + length passes twice the list's length; a length of at most 1, negative included, returns the list unchanged |
| KnotHash.TwistIsCircularReverse | day10_test.go:50-69 | a window that starts inside the list and is no longer than it is the rotate-reverse-rotate reversal CircularReverse |
| KnotHash.TwistWhole | day10_test.go:52-69 | a window as long as the list or longer reverses the whole list and rotates it |
| KnotHash.TwistFromEnd | day10_test.go:52-69 | a window starting just past the last element is the window of the same length from the front |
| KnotHash.TwistPermutes | day10_test.go:50-69 | reversing a window of any length keeps the list a permutation of what it was |
| KnotHash.ReversalPermutes | day10_test.go:43-72 | whenever reverseSubSlice returns, the list is a permutation of what it was |
| KnotHash.ReverseWindow | day10_test.go:58-62 | the swap loop reverses the window and leaves the rest of the array as it was |
| KnotHash.CopyInto | day10_test.go:54-55 | Go's copy between distinct arrays puts the source elements over the destination range and changes nothing else |
| KnotHash.ReverseSubSlice | day10_test.go:43-72 | on every start and length where Go does not panic, the array afterwards is Reversal of the array before |
| KnotHash.ReverseInPlace | day10_test.go:50-65 | a window that ends before the last element is reversed where it lies, through the aliasing subslice |
| KnotHash.ReverseThroughCopy | day10_test.go:52-69 | a window reaching the end, also one longer than the list, copied out, reversed and copied back is Twist of the list |
| KnotHash.CopyOut | day10_test.go:53-55 | the new subslice holds the tail piece of the window followed by its head piece |
| KnotHash.CopyBack | day10_test.go:66-68 | copying the subslice back puts its first part over the tail of the list and its second part over the head, the second winning where a long window overlaps |
| KnotHash.WrappedWindow | day10_test.go:52-69 | copying the window out, reversing it and copying it back is Twist of the list |
| KnotHash.WrappedWindowAt | day10_test.go:52-69 | each position after the copy back holds the element Twist puts there |
| KnotHash.Step | day10_test.go:37-41 | a hash step that does not panic keeps the list's length and a valid position, and adds one to the skip; None on an empty list or a panicking reversal |
| KnotHash.ShortStep | day10_test.go:37-46 | a step by a length of at most 1, negative included, never panics on a non-empty list and leaves the list as it was; a non-negative sum keeps the position non-negative |
| KnotHash.StepPosition | day10_test.go:39 | the new position is position + length + skip under Go's `%`: congruent to it, within the list's length of 0, and of its sign |
| KnotHash.NegativePositionPanics | day10_test.go:38-52 | once the position is negative, a step by a length of at least 2 panics |
| KnotHash.StepPermutes | day10_test.go:37-41 | a step that does not panic keeps the list a permutation of what it was |
| KnotHash.Steps | day10_test.go:28-35 | the steps for every length, when none panics, keep the list's length and a valid position |
| KnotHash.StepsCons | day10_test.go:30-33 | the steps for a list of lengths are the first length's step followed by the steps for the rest |
| KnotHash.StepsPanic | day10_test.go:30-33 | a panicking step ends the steps with the panic |
| KnotHash.StepsPermute | day10_test.go:28-41 | through any number of steps that do not panic the list stays a permutation of what it was, and the skip grows by the number of lengths |
| KnotHash.HashListIsPermutationOfIota | day10_test.go:18-41 | a list started from 0..n-1 holds each of 0..n-1 exactly once after any lengths that do not panic |
| KnotHash.TrimLeft | day10_test.go:26 | a piece loses the spaces at its start |
| KnotHash.TrimRight | day10_test.go:26 | a piece loses the spaces at its end |
| KnotHash.SplitLengths | day10_test.go:26-29 | splitting at spaces, comma, spaces gives one piece per comma-separated part |
| KnotHash.TrimPieces | day10_test.go:26-29 | trimming the pieces next to commas keeps their number |
| KnotHash.ParseLengths | day10_test.go:29-32 | the lengths are one per comma-separated piece |
| KnotHash.HashOf | day10_test.go:18-35 | hash on a new list of the given size: None on a negative size, where make panics; otherwise a result only when no step panics and the list has at least two elements; ExampleHash states the test's value |
| KnotHash.HashOfIs | day10_test.go:34 | once the steps are known, hash is the product of the list's first two elements |
| KnotHash.KnotHash.constructor | day10_test.go:18-24 | a new hash holds 0..size-1 in a fresh array, at position 0 with skip 0 |
| KnotHash.KnotHash.HashStep | day10_test.go:37-41 | the hash's new state is one step of its old state by the length, negative and long lengths included |
| KnotHash.KnotHash.Hash | day10_test.go:28-35 | the hash's new state is the steps for the descriptor's lengths, and the result is the product of the first two elements |
| KnotHash.ExampleStep1 | day10_test.go:93-98 | the step by 3 from the new hash of five gives 2 1 0 3 4 at position 3 with skip 1 |
| KnotHash.ExampleStep2 | day10_test.go:100-103 | the step by 4 gives 4 3 0 1 2 at position 3 with skip 2 |
| KnotHash.ExampleStep3 | day10_test.go:105-108 | the step by 1 gives 4 3 0 1 2 at position 1 with skip 3 |
| KnotHash.ExampleStep4 | day10_test.go:110-113 | the step by 5 gives 3 4 2 1 0 at position 4 with skip 4 |
| KnotHash.ExampleStep5 | day10_test.go:115-118 | the step by 0 gives 3 4 2 1 0 at position 3 with skip 5 |
| KnotHash.ExampleLongWindow | day10_test.go:37-69 | a step by 7 on the new hash of five reverses the whole list and rotates it: 1 0 4 3 2 at position 2 |
| KnotHash.LongWindowTwist | day10_test.go:52-69 | the window of 7 from the front of 0 1 2 3 4 gives 1 0 4 3 2 |
| KnotHash.ExampleOverlongWindow | day10_test.go:55 | a step by 11 on a list of five panics on the slice bound |
| KnotHash.ExampleNegativeLength | day10_test.go:28-46 | the lengths 3, -1, 2 on five run without a panic: -1 leaves the list, and the result is 2 1 0 4 3 at position 2 with skip 3 |
| KnotHash.ExampleNegativePosition | day10_test.go:37-52 | a length of -3 on the new hash of five moves the position to -3, and the next length of 2 panics |
| KnotHash.ExampleLengths | day10_test.go:26-32 | "3, 4, 1, 5" reads as the lengths 3, 4, 1 and 5 |
| KnotHash.ExampleSteps | day10_test.go:28-35 | the steps for 3, 4, 1, 5 from the new hash of five end at 3 4 2 1 0 at position 4 with skip 4 |
| KnotHash.ExampleHash | day10_test.go:85-88 | hash("3, 4, 1, 5") on a new hash of five is 12 |
| Pipes.EdgeStaysInNodes | day12_test.go:64-65 | following a connection, through the zero Process a missing pid gives, stays among the records' pids and the empty pid |
| Pipes.ReachesTrans | day12_test.go:56-69 | walks avoiding a set chain together |
| Pipes.ReachesAvoidingLess | day12_test.go:56-69 | a walk avoiding more also avoids less |
| Pipes.ReachesFirstStep | day12_test.go:64-66 | whatever a pid reaches, other than itself, is reached through one of its connections without coming back to it |
| Pipes.ReachAbsorbed | day12_test.go:56-69 | walks that enter the part of the seen set already closed add nothing new |
| Pipes.ReachAllClosed | day12_test.go:64-66 | what the connections reach is closed under further walks |
| Pipes.ReachUnfolds | day12_test.go:56-69 | what a pid not yet seen reaches is itself and what each of its connections, in order, reaches avoiding what was seen before |
| Pipes.ReachSetAvoids | day12_test.go:57-59 | a walk never revisits a seen pid |
| Pipes.WalkStep | day12_test.go:64-66 | one more connection walked adds what it reaches |
| Pipes.AfterConns | day12_test.go:61-68 | after the walks from all connections, seen has grown by everything the pid reaches and the count is its number |
| Pipes.RecursiveCountPidGroup | day12_test.go:56-69 | recursiveCountPidGroup adds to seen exactly what the pid reaches avoiding seen, and counts those pids |
| Pipes.CountConnections | day12_test.go:61-68 | marking a pid not yet seen and walking its connections counts everything it reaches |
| Pipes.CountPidGroup | day12_test.go:49-54 | countPidGroup is the number of pids reachable from the pid, at least one for a recorded pid |
| Pipes.ReachesBack | day12_test.go:56-69 | in a table whose connections are two-way, reachability is symmetric |
| Pipes.SameGroup | day12_test.go:85-92 | any member of a group has that same group |
| Pipes.RemoveGroup | day12_test.go:88-94 | taking a whole group out of a union of groups leaves the other groups, one fewer |
| Pipes.GroupsLeftStep | day12_test.go:79-95 | one round of countGroups counts one group and leaves the others |
| Pipes.CountGroupsStep | day12_test.go:79-95 | one round keeps the loop's invariant and removes at least the chosen pid |
| Pipes.CountGroups | day12_test.go:71-98 | countGroups, whichever pid it picks, returns at most the number of records, zero exactly for no records, and the number of connected groups when every connection names a record and is two-way |
| Pipes.RemoveAll | day12_test.go:90-92 | the removal loop leaves remaining minus seen |
| Pipes.ListsBackSymmetric | day12_test.go:56-69 | a table whose records list each other back has two-way connections |
| Pipes.UpToNewline | day12_test.go:29 | `.*` takes the text up to the first newline |
| Pipes.RecordCaptures | day12_test.go:29-33 | the pid capture is a non-empty run of digits, the rest has no newline |
| Pipes.FindRecordNone | day12_test.go:33 | FindStringSubmatch finds nothing exactly when the pattern matches nowhere |
| Pipes.FindRecordLeftmost | day12_test.go:33 | FindStringSubmatch reports the captures of the leftmost match |
| Pipes.TrimLeft | day12_test.go:30 | the leading `\s*` run is dropped and what is left starts with no space |
| Pipes.TrimRight | day12_test.go:30 | the trailing `\s*` run is dropped and what is left ends with no space |
| Pipes.SplitConns | day12_test.go:30-35 | splitting on `\s*,\s*` gives one piece per comma-separated part, none holding a comma |
| Pipes.RecordOf | day12_test.go:32-36 | a record read from a line has a pid of digits |
| Pipes.RecordOfSome | day12_test.go:32-36 | parseRecord finds a record exactly when the pattern matches somewhere in the line |
| Pipes.SplitConnsOfSpaced | day12_test.go:30-35 | connections written with ", " between them split back into themselves |
| Pipes.MatchOfRender | day12_test.go:29-33 | the pattern matches a written record line at its start, capturing the pid and the rest |
| Pipes.RecordOfRender | day12_test.go:32-36 | the line of any process written in the input's format reads back as that process |
| Pipes.StoreLinesWellFormed | day12_test.go:40-47 | storing records keeps every record under its own pid |
| Pipes.StoreLinesLastWins | day12_test.go:37-47 | the last record given for a pid is the one kept |
| Pipes.StoreLinesUntouched | day12_test.go:40-47 | a pid no line names keeps what it had |
| Pipes.StoreRendered | day12_test.go:40-47 | written records with distinct pids, one per line, stored into an empty table give exactly those records |
| Pipes.PipeMapper.constructor | day12_test.go:25-27 | NewPipeMapper starts with no records |
| Pipes.PipeMapper.ParseRecord | day12_test.go:32-38 | parseRecord replaces whatever was stored under the line's pid by the line's record |
| Pipes.PipeMapper.ParseRecords | day12_test.go:40-47 | parseRecords stores the record of every non-empty line, in order |
| PipesExamples.ExampleParseRecord | day12_test.go:112-127 | "0 <-> 2" reads as pid 0 connected to 2, and "2 <-> 0, 3, 4" as pid 2 connected to 0, 3 and 4 |
| PipesExamples.ExampleParseRecords | day12_test.go:102-145 | parseRecords on the example text stores its seven records |
| PipesExamples.ExampleShape | day12_test.go:102-110 | the example's connections all name records and are two-way |
| PipesExamples.ExampleGroupOfZero | day12_test.go:147-154 | pid 0's group is the six pids other than 1 |
| PipesExamples.ExampleGroupOfOne | day12_test.go:104 | pid 1 is a group by itself |
| PipesExamples.ExampleComponents | day12_test.go:156-163 | the example has exactly those two groups |
| PipesExamples.ExampleCounts | day12_test.go:147-163 | countPidGroup("0") returns 6 and countGroups returns 2 |
| Firewall.Tocked | day13_test.go:27-41 | a tock keeps the range, steps one position in the scanner's direction, and turns the scanner round exactly when it would step past either end |
| Firewall.TockStaysInRange | day13_test.go:27-41 | a scanner of range at least two never leaves its range |
| Firewall.Tocks | day13_test.go:27-41 | any number of tocks keep the range |
| Firewall.TockPhase | day13_test.go:27-41 | a tock takes the closed-form position at time t to the one at time t + 1 |
| Firewall.TockLast | day13_test.go:34-39 | the last tock of a round trip brings the scanner back to the top, heading down |
| Firewall.TockInside | day13_test.go:27-41 | a tock inside a round trip moves to the next position of the round trip |
| Firewall.TocksPhase | day13_test.go:27-41 | the simulated scanner agrees with the closed form at every time |
| Firewall.AtTopWhen | day13_test.go:27-41 | a scanner of range r >= 2 is at the top exactly at the multiples of 2(r - 1), and always inside its range |
| Firewall.RangeOneFlips | day13_test.go:27-41 | a scanner of range 1 alternates between position 0 and position -1, as the Go arithmetic makes it |
| Firewall.TockAll | day13_test.go:94-101 | Trip.tock keeps the number of depths |
| Firewall.TockTrips | day13_test.go:127-129 | tocking a trip changes only its scanners and keeps their number |
| Firewall.TickTrip | day13_test.go:82-92 | a tick moves the packet one depth on and leaves the scanners; the packet is caught, and severity grows by depth times range, exactly when a scanner at the top is at the new depth |
| Firewall.Travel | day13_test.go:131-134 | the crossing loop leaves the packet at the last depth and keeps the number of depths |
| Firewall.MaxDepthOf | day13_test.go:52-60 | maxDepth is at least -1, no depth exceeds it, and it is -1 or one of the depths |
| Firewall.MaxDepthUnique | day13_test.go:52-60 | those three properties determine maxDepth |
| Firewall.MaxDepth | day13_test.go:52-60 | the loop over the map's keys, in whatever order they come, returns maxDepth |
| Firewall.NewTripValue | day13_test.go:62-68 | a new trip has the packet before depth 0, no severity, not caught, one slot per depth up to maxDepth, and a scanner at the top of each described depth |
| Firewall.CaughtFrom | day13_test.go:82-92 | the packet is caught from depth p on exactly when some depth from p on catches it |
| Firewall.TockTripsScanners | day13_test.go:62-129 | after k tocks of a new trip every described depth's scanner has made k steps |
| Firewall.TockTripsLayout | day13_test.go:127-129 | k tocks of the starting layout give the layout at time k |
| Firewall.StepAt | day13_test.go:131-134 | one tick and tock at depth p is met by the scanner there at time delay + p |
| Firewall.TravelFrom | day13_test.go:131-134 | the crossing from depth p adds the severities of the depths from p on that catch the packet, and is caught exactly when one does |
| Firewall.SeverityFrom | day13_test.go:131-134 | the severity collected from depth p on: depth times range at each depth that catches the packet; TravelFrom and TripOutcomeIs state the crossing loop sums exactly it |
| Firewall.TripOutcomeIs | day13_test.go:124-136 | tripSeverity's severity is the sum of depth times range over the depths that catch the packet, and it is caught exactly when some depth does |
| Firewall.CaughtIff | day13_test.go:124-136 | the packet is caught exactly when some scanner is at the top as the packet reaches its depth |
| Firewall.HitWhen | day13_test.go:124-136 | a scanner of range at least two catches the packet exactly when delay plus depth is a multiple of 2(range - 1) |
| Firewall.OutcomeOfRun | day13_test.go:124-136 | tripSeverity's result is read off the simulation the Go code runs: the crossing after delay tocks |
| Firewall.SimulationCaught | day13_test.go:139-148 | whether a delay is caught is read off the same simulation |
| Firewall.CaughtBeforeIff | day13_test.go:141-159 | having passed every delay below d is having every one of them caught |
| Firewall.CaughtBeforeBound | day13_test.go:141-159 | a delay all of whose predecessors are caught cannot pass one that gets through |
| Firewall.ValuesOf | day13_test.go:70-80 | the values of the scanners are one per slot |
| Firewall.NewScannerStates | day13_test.go:63-66 | the slice NewTrip fills has one fresh scanner at the top of each described depth, nil elsewhere, no two slots sharing a scanner |
| Firewall.Trial | day13_test.go:143-148 | one attempt of tripSeverityZero is caught exactly when the crossing from the given scanners is, and leaves those scanners as they were |
| Firewall.ScannerState.constructor | day13_test.go:21-25 | a scanner holds the given range, position and direction |
| Firewall.ScannerState.Tock | day13_test.go:27-41 | the scanner after tock is Tocked of the scanner before |
| Firewall.Trip.FromDescriptor | day13_test.go:62-68 | NewTrip builds fresh scanners, no two slots sharing one, with the value NewTripValue gives |
| Firewall.Trip.FromStates | day13_test.go:70-80 | NewTripFromScannerState builds fresh copies of the given scanners, the packet before depth 0 |
| Firewall.Trip.Tick | day13_test.go:82-92 | the trip after tick is TickTrip of the trip before |
| Firewall.Trip.Tock | day13_test.go:94-101 | the trip after tock is every scanner tocked once |
| Firewall.Trip.Wait | day13_test.go:127-129 | the waiting loop tocks delay times, and not at all for a delay of 0 or less |
| Firewall.Trip.Attempt | day13_test.go:143-158 | one crossing attempt reports whether it was caught |
| Firewall.Trip.Cross | day13_test.go:131-134 | the crossing loop leaves the trip at Travel of the trip before |
| Firewall.Firewall.constructor | day13_test.go:103-105 | a firewall holds the given descriptor |
| Firewall.Firewall.TripSeverity | day13_test.go:124-136 | tripSeverity returns the severity and catch of the closed-form trip outcome |
| Firewall.Firewall.TripSeverityZero | day13_test.go:138-161 | tripSeverityZero returns the first delay that is not caught |
| Firewall.ExampleMaxDepth | day13_test.go:214-220 | the example's maxDepth is 6 |
| Firewall.ExampleHits | day13_test.go:165-170 | the example's depth 0 catches every 4, depth 1 every 2, depths 4 and 6 every 6, and the other depths never |
| Firewall.ExampleSums | day13_test.go:165-170 | the example's severity and catch in closed form for every delay |
| Firewall.ExampleTrip | day13_test.go:179-205 | the example's trips for every delay, severity and catch |
| Firewall.ExampleCaught | day13_test.go:165-170 | which delays the example catches |
| Firewall.ExampleSeverityAtZero | day13_test.go:180-184 | leaving at once gives severity 24, caught |
| Firewall.ExampleSeverityAtFour | day13_test.go:192-197 | leaving at delay 4 gives severity 0 but caught |
| Firewall.ExampleSeverityAtTen | day13_test.go:199-204 | leaving at delay 10 gives severity 0, not caught |
| Firewall.ExampleFormulaBelowTen | day13_test.go:207-211 | every delay below 10 is caught |
| Firewall.FirstClearIs | day13_test.go:141-159 | a delay that gets through, after every earlier delay is caught, is the one tripSeverityZero answers |
| Firewall.ExampleFirstClear | day13_test.go:207-211 | tripSeverityZero on the example answers 10 |
| Firewall.ExampleNewTrip | day13_test.go:223-231 | the example's new trip covers depths 0 to 6 with the packet before depth 0 |
| Firewall.ExampleTicks | day13_test.go:224-249 | five ticks without a tock put the packet at depths 0 to 4 with severity 0, 2 and 18 as the test checks |
| Firewall.ExampleTocks | day13_test.go:252-284 | the positions of scanners of range 3, 2 and 4 over four tocks are those the test checks |
| Disk.HexValue | day14_test.go:28-33 | a hex digit's value lies in 0..15 |
| Disk.DigitSquares | day14_test.go:35-46 | the four squares of a hash digit are its value's binary bits, most significant first |
| Disk.GridInDisk | day14_test.go:35-46 | every square of the 128 by 128 grid is read from a hex digit of its row |
| Disk.OffsetsAreAdjacent | day14_test.go:89-94 | the four offsets reach exactly the squares that share a side with a square |
| Disk.ConnectedSym | day14_test.go:96-112 | connection through used squares is symmetric |
| Disk.ConnectedTrans | day14_test.go:96-112 | connection through used squares is transitive |
| Disk.RegionOfMember | day14_test.go:96-112 | all squares of one region have that same region |
| Disk.Region | day14_test.go:96-112 | the squares connected to p through used squares, the region markAdjacent clears; RegionOfMember, RegionOfOther and MarkAdjacent state it |
| Disk.Regions | day14_test.go:60-87 | the regions of a set of used squares, one per square; RemoveRegion and RegionCount state their number is what regionCount counts |
| Disk.RegionOfOther | day14_test.go:96-112 | a square outside a region keeps its own region once that region is cleared |
| Disk.RemoveRegion | day14_test.go:60-87 | clearing one region leaves exactly the other regions, one fewer |
| Disk.FillingClears | day14_test.go:103-111 | clearing a set neighbour's region keeps the invariant of the fill around p |
| Disk.WalkCleared | day14_test.go:96-112 | once all four neighbours are handled, every walk of used squares from p ends on a cleared square |
| Disk.FillingEnds | day14_test.go:96-112 | after all four neighbours exactly p's region has been cleared |
| Disk.MarkAdjacent | day14_test.go:96-112 | markAdjacent clears p's region of set squares and nothing else, probing only inside the bitmap |
| Disk.UsedBeforeNext | day14_test.go:48-58 | the squares counted so far grow by the current square exactly when it is used |
| Disk.UsedCount | day14_test.go:48-58 | usedCount is the number of used squares |
| Disk.RegionCount | day14_test.go:60-87 | regionCount is the number of regions of side-connected used squares |
| Disk.ClearRegions | day14_test.go:74-85 | the counting loops count one region per square still set when reached, and leave the bitmap clear |
| Disk.ExampleUsed | day14_test.go:117-136 | rows starting with the digits d4 and 0a read ##.#.#.. and ....#.#. in their first eight squares |
| Common.GoRem | day15_test.go:20 | Go's `%` is the remainder truncated toward zero: nearer to zero than the divisor, with the dividend's sign whatever the divisor's, and congruent to the dividend modulo the divisor |
| Generator.BitAnd | day15_test.go:27 | a bitwise and is no larger than either operand |
| Generator.BitAndLowMask | day15_test.go:24-27 | and-ing with 2^k - 1 keeps the remainder by 2^k |
| Generator.MaskLow16IsRemainder | day15_test.go:24-27 | and-ing with low16BitMask keeps the remainder by 65536, for negative values as Go's two's complement does |
| Generator.SameLow16BitsIsMaskEquality | day15_test.go:26-28 | sameLow16Bits holds exactly when the two masked values are equal |
| Generator.Values | day15_test.go:19-22 | the first n values next returns, in order, value i being the seed after i + 1 steps |
| Generator.NextValue | day15_test.go:19-22 | next's new seed, seed times factor by Go's `%` with 2147483647; NumberGenerator.Next, ValuesInRange and SeedAfterInRange state it |
| Generator.ValuesInRange | day15_test.go:19-22 | from a seed and factor that are not negative every value lies in [0, 2147483647) |
| Generator.SeedAfterInRange | day15_test.go:19-22 | the seed stays non-negative, and below 2147483647 after at least one step |
| Generator.ValuesResume | day15_test.go:19-22 | since next saves its value as the seed, a generator restarted from its seed after n values continues the same sequence |
| Generator.SeedAfterAdds | day15_test.go:19-22 | n + m steps are n steps then m steps |
| Generator.ProductFits | day15_test.go:20 | for seeds and factors below 2147483647 the product stays inside Go's 64-bit int, so next never wraps around |
| Generator.NumberGenerator.constructor | day15_test.go:15-17 | NewNumberGenerator keeps the seed and factor |
| Generator.NumberGenerator.Next | day15_test.go:19-22 | next replaces the seed by seed times factor modulo 2147483647, returns it, and keeps the factor |
| Generator.Matches | day15_test.go:30-38 | the number of agreeing rounds is at most the number of rounds |
| Generator.MatchesCountsPositions | day15_test.go:30-38 | the count is the number of positions at which the low 16 bits agree |
| Generator.JudgeCountStep | day15_test.go:32-36 | one more round adds one exactly when that round's two values agree in their low 16 bits |
| Generator.Judge | day15_test.go:30-38 | judgeCount advances both generators once per round, counts the agreeing rounds, and leaves each generator at its seed after that many rounds |
| Generator.ExampleSameLow16Bits | day15_test.go:41-49 | of the five pairs only the third agrees in its low 16 bits |
| Generator.ExampleGeneratorA | day15_test.go:60-74 | generator A from seed 65 gives 1092455, 1181022009, 245556042, 1744312007, 1352636452 |
| Generator.ExampleGeneratorB | day15_test.go:75-80 | generator B from seed 8921 gives 430625591, 1233683848, 1431495498, 137874439, 285222916 |
| Generator.ExampleJudgeFiveRounds | day15_test.go:41-90 | of the first five rounds of the example generators only the third agrees |
| Dance.Letters | day16_test.go:19-30 | NewProgramDance(n) lines up n distinct programs, each a letter from 'a' to 'z' |
| Dance.ParseStep | day16_test.go:36-66 | the step a text describes, tried as spin, then exchange, then partner, or None where step() panics; DanceExamples.ParseExchange and DanceExamples.ParsePartnerEB state the test's steps |
| Dance.StepText | day16_test.go:36-66 | step() on a text: its step played on the line, or None where the text is no step or does not fit the line |
| Dance.IndexOfDistinct | day16_test.go:59-60 | in a line of distinct programs, bytes.IndexByte finds each program where it stands |
| Dance.Play | day16_test.go:36-66 | every step that fits keeps the line's length and its programs |
| Dance.RunSteps | day16_test.go:36-100 | step() on each text in turn keeps the line's length and programs, when none panics |
| Dance.SpinMovesTail | day16_test.go:38-49 | a spin moves the last x programs to the front, keeping their order, and the rest after them; s0 changes nothing |
| Dance.ExchangeSwaps | day16_test.go:51-55 | an exchange swaps the programs at two positions and leaves the others |
| Dance.PartnerSwaps | day16_test.go:57-61 | a partner swap exchanges where two named programs stand and leaves the others |
| Dance.PlayKeepsDistinct | day16_test.go:36-66 | every step keeps the programs distinct |
| Dance.StepDst | day16_test.go:38-55 | a spin's or exchange's position map has an inverse |
| Dance.StepSrcInjective | day16_test.go:38-55 | no two positions of a spin's or exchange's result read from the same place |
| Dance.PlayGathers | day16_test.go:38-55 | a spin or an exchange reads the line through its position map |
| Dance.GatherCompose | day16_test.go:98-100 | reading through two maps in turn is reading through their composition |
| Dance.ComposeInverse | day16_test.go:98-100 | composed maps have the composed inverses, in reverse order |
| Dance.GatherDistinct | day16_test.go:98-100 | reading through a bijection keeps the programs distinct |
| Dance.FitsLater | day16_test.go:36-66 | whether a step fits depends only on the line's length and letters |
| Dance.PlayAll | day16_test.go:98-100 | the steps in order keep the line's length and programs |
| Dance.PlayAllDistinct | day16_test.go:98-100 | the steps in order keep the programs distinct |
| Dance.Repeat | day16_test.go:72-87 | dancing k times keeps the line's length and programs |
| Dance.RepeatDistinct | day16_test.go:72-87 | dancing k times keeps the programs distinct |
| Dance.SrcDstInverse | day16_test.go:102-104 | the spins and exchanges of a dance move positions through a bijection |
| Dance.PlayAllGathers | day16_test.go:98-100 | spins and exchanges in sequence are one read through the composed map |
| Dance.PartnerRenames | day16_test.go:57-61 | on distinct programs a partner swap renames its two letters |
| Dance.GatherRename | day16_test.go:72-87 | moving positions and renaming letters commute |
| Dance.RenameKeeps | day16_test.go:57-61 | renaming with letters of the line keeps its letters and keeps them distinct |
| Dance.Decompose | day16_test.go:72-87 | on distinct programs, dancing the steps in order is doing the spins and exchanges first, then the partner swaps as renamings, which is why danceN may sort them |
| Dance.MoveSnoc | day16_test.go:76-82 | a trailing spin or exchange adds itself to the moves, its map to their sources, and nothing to the pairs |
| Dance.GatherRenameRounds | day16_test.go:72-87 | moving k times and renaming k times commute |
| Dance.RepeatSplits | day16_test.go:72-87 | dancing k times is moving k times, then renaming k times |
| Promenade.MoveToIsMap | day16_test.go:102-104 | moveTo maps every position of the saved line to where its program now stands |
| Promenade.Replay | day16_test.go:106-112 | replaying the permutation keeps the length |
| Promenade.ScatterPrefix | day16_test.go:107-110 | after k writes a position holds its program exactly when the program it receives came before k, and the zero byte otherwise |
| Promenade.ScatterGathers | day16_test.go:107-110 | writing each program to where moveTo sends it reads the line through the inverse map |
| Promenade.MoveToInverse | day16_test.go:102-104 | on distinct programs moveTo is the inverse of the dance's position map |
| Promenade.ReplayRounds | day16_test.go:106-112 | replaying moveTo t more times gathers through the dance's map t more times |
| Promenade.Compile | day16_test.go:134-140 | one compiled pair per partner text, both bytes inside the 200-entry table |
| Promenade.InitTracks | day16_test.go:120-123 | the table built from a line of distinct programs gives each program its position |
| Promenade.SwapTracks | day16_test.go:152-154 | swapping two table entries tracks the line with the two letters renamed |
| Promenade.RoundTracks | day16_test.go:152-154 | a round of swaps tracks the line renamed by the same pairs in order |
| Promenade.RoundsTracks | day16_test.go:143-157 | t rounds of swaps track the line renamed t times |
| Promenade.ToBytesTracks | day16_test.go:126-132 | programsToByteSlice reads the tracked line back |
| Promenade.PartnerPhase | day16_test.go:115-160 | danceN_partner keeps the line's length |
| Promenade.PartnerPhaseRenames | day16_test.go:115-160 | on distinct programs holding every partner, danceN_partner renames the line by the partner pairs repeat times |
| Promenade.NoRounds | day16_test.go:143-159 | with repeat at most 0 the table is built and read back unchanged |
| Promenade.RunStepsPlays | day16_test.go:36-66 | step() on each text in turn succeeds exactly when every text reads as a step that fits, and then plays the steps |
| Promenade.NonPartners | day16_test.go:76-82 | the texts stepPartnerRe does not match, in order |
| Promenade.Partners | day16_test.go:76-82 | the texts stepPartnerRe matches, in order |
| Promenade.ParsePartner | day16_test.go:57-139 | a text step() reads as a partner swap matches stepPartnerRe and compiles to the same two letters |
| Promenade.NonPartnersMoves | day16_test.go:76-82 | the texts sorted as non-partner steps read as the dance's spins and exchanges |
| Promenade.PartnersPairs | day16_test.go:76-140 | the texts sorted as partner steps compile to the dance's partner pairs |
| Promenade.PairsOfIn | day16_test.go:57-61 | both letters of every partner swap that fits the line stand in it |
| Promenade.DanceNSpec | day16_test.go:72-87 | danceN keeps the line's length when neither phase panics |
| Promenade.NonPartnersRun | day16_test.go:98-100 | stepping through the positional texts reads the line through the moves' map |
| Promenade.NonPartnerPhaseGathers | day16_test.go:89-113 | danceN_nonpartner moves the line through the spins' and exchanges' map repeat times |
| Promenade.NonPartnerPhaseOf | day16_test.go:89-113 | the positional phase that runs through to q replays q's permutation repeat - 1 more times |
| Promenade.DanceNRepeats | day16_test.go:72-87 | on distinct programs, for a dance that steps through without panicking and repeat >= 1, danceN is dancing the whole dance repeat times |
| Promenade.DanceInOrder | day16_test.go:68-70 | dance(d), which is danceN(d, 1), is step() on each text in order |
| Promenade.RunStepsKeeps | day16_test.go:36-66 | dancing step by step keeps the programs distinct and lower-case |
| Promenade.DanceNZero | day16_test.go:72-143 | with repeat <= 0 danceN still does the spins and exchanges once and no partner swap |
| Promenade.RotatedAt | day16_test.go:46-49 | a line whose first places hold the last spin programs and whose others hold the rest is the spin |
| Promenade.RunStepsNext | day16_test.go:98-100 | the next text of a dance that runs through is a step that runs on the line reached so far |
| Promenade.ProgramDance.constructor | day16_test.go:19-30 | NewProgramDance(size) holds the first size letters |
| Promenade.ProgramDance.Step | day16_test.go:36-66 | the line after step() is StepText of the line before |
| Promenade.ProgramDance.SpinBy | day16_test.go:46-49 | the two copies of a spin leave the spun line |
| Promenade.ProgramDance.Dance | day16_test.go:68-70 | the line after dance() is danceN of the line before, once |
| Promenade.ProgramDance.DanceN | day16_test.go:72-87 | the line after danceN() is DanceNSpec of the line before |
| Promenade.ProgramDance.StepAll | day16_test.go:98-100 | the line after the step loop is RunSteps of the line before |
| Promenade.ProgramDance.DanceNNonPartner | day16_test.go:89-113 | the line after danceN_nonpartner is NonPartnerPhase of the line before |
| Promenade.ProgramDance.ReplayMoves | day16_test.go:106-112 | the replay loop leaves the line replayed repeat - 1 times |
| Promenade.ProgramDance.DanceNPartner | day16_test.go:115-160 | the line after danceN_partner is PartnerPhase of the line before |
| Promenade.NonPartnerPhase | day16_test.go:89-113 | danceN_nonpartner's result, the dance once and its position map replayed; it keeps the line's length, and NonPartnerPhaseGathers states it moves the line through the spins' and exchanges' map repeat times |
| Promenade.SortSteps | day16_test.go:73-82 | danceN's sorting loop returns the non-partner texts and the partner texts, each in order |
| Promenade.RecordMoves | day16_test.go:102-104 | the loop fills moveTo[j] with where save[j] now stands |
| Promenade.ScatterLine | day16_test.go:107-111 | one replay writes every program where moveTo sends it |
| Promenade.TableOf | day16_test.go:120-123 | the position table has every program's position |
| Promenade.CompileSteps | day16_test.go:134-140 | the loop compiles each partner text to the first bytes of its captures |
| Promenade.SwapAll | day16_test.go:152-154 | one round swaps the table entries of every compiled pair in order |
| Promenade.ProgramsToByteSlice | day16_test.go:126-132 | programsToByteSlice writes every program where the table puts it |
| DanceExamples.ExampleNew | day16_test.go:167-175 | NewProgramDance(5) is "abcde" |
| DanceExamples.ExampleSpin | day16_test.go:184-187 | s3 on "abcde" gives "cdeab" |
| DanceExamples.ExampleExchange | day16_test.go:189-192 | x3/4 on "abcde" gives "abced" |
| DanceExamples.ExamplePartner | day16_test.go:194-197 | pe/b on "abcde" gives "aecdb" |
| DanceExamples.ExampleSteps | day16_test.go:199-206 | s1, x3/4, pe/b in turn on "abcde" give "eabcd", "eabdc", "baedc" |
| DanceExamples.ExampleStepsAgain | day16_test.go:223-228 | the same three steps on "baedc" give "ceadb" |
| DanceExamples.ExampleSplit | day16_test.go:76-212 | "s1,x3/4,pe/b" splits into its three steps |
| DanceExamples.ExampleDanceN | day16_test.go:223-228 | danceN("s1,x3/4,pe/b", 2) on "abcde" gives "ceadb" |
| DanceExamples.ExampleDance | day16_test.go:209-214 | dance("s1,x3/4,pe/b") on "abcde" gives "baedc" |
| Spinlock.New | day17_test.go:18-23 | NewSpinLock's buffer holds 0 alone, with the cursor on it |
| Spinlock.Advance | day17_test.go:25-30 | advanceCursor moves to the next element, or to the front after the last, and changes nothing else |
| Spinlock.AdvanceBy | day17_test.go:34-36 | advancing k times keeps the buffer and count |
| Spinlock.AdvanceByWraps | day17_test.go:34-36 | k advances land k places further round the circle |
| Spinlock.InsertAfter | day17_test.go:37 | InsertAfter lengthens the buffer by one, keeps the front, and puts the value right after the cursor's element |
| Spinlock.Inserted | day17_test.go:32-39 | insert counts one up and leaves the cursor on the new number |
| Spinlock.InsertSteps | day17_test.go:32-39 | insert as the loop does it, stepSize advances, the insertion and one more advance, is the closed form: the new number lands stepSize places round from the cursor |
| Spinlock.InsertTimes | day17_test.go:41-48 | insertN keeps the cursor on an element |
| Spinlock.FilledLength | day17_test.go:32-39 | the buffer of a filled lock is as long as the numbers it holds |
| Spinlock.InsertAfterAdds | day17_test.go:37 | inserting adds exactly the new value to the buffer's values |
| Spinlock.PlaceKeepsFilled | day17_test.go:37-38 | putting the next number after any element keeps every number 0 .. count in the buffer once, 0 at the front, and the cursor on the new number |
| Spinlock.InsertKeepsFilled | day17_test.go:32-39 | every insert keeps the lock filled and counts one up |
| Spinlock.InsertTimesFills | day17_test.go:41-48 | after n inserts from NewSpinLock the buffer has n + 1 elements holding each of 0 .. n once, 0 at the front, with the cursor on n |
| Spinlock.FindFrom | day17_test.go:50-57 | the first index from k holding the value, or none exactly when no such index exists |
| Spinlock.Find | day17_test.go:50-57 | cursorOf finds the first element holding the value, and nil exactly when the value is absent |
| Spinlock.FindFilled | day17_test.go:50-57 | in a filled lock cursorOf finds exactly the numbers 0 .. count |
| Spinlock.SpinLock.constructor | day17_test.go:18-23 | NewSpinLock keeps the step size and starts at New |
| Spinlock.SpinLock.AdvanceCursor | day17_test.go:25-30 | the lock after advanceCursor is Advance of the lock before |
| Spinlock.SpinLock.Insert | day17_test.go:32-39 | the lock after insert is Inserted of the lock before |
| Spinlock.SpinLock.InsertN | day17_test.go:41-48 | the lock after insertN(n) has had n inserts, none when n < 1 |
| Spinlock.SpinLock.CursorOf | day17_test.go:50-57 | cursorOf's loop returns Find of the buffer |
| Spinlock.SpinLock.ToSlice | day17_test.go:60-66 | toSlice returns the values front to back |
| Spinlock.ExampleInsert1 | day17_test.go:91-93 | the first insert with step 3 gives 0 1, cursor on 1 |
| Spinlock.ExampleInsert2 | day17_test.go:95-97 | then 0 2 1, cursor on 2 |
| Spinlock.ExampleInsert3 | day17_test.go:99-101 | then 0 2 3 1, cursor on 3 |
| Spinlock.ExampleInsert4 | day17_test.go:103-105 | then 0 2 4 3 1, cursor on 4 |
| Spinlock.ExampleInsert5 | day17_test.go:107-109 | then 0 5 2 4 3 1, cursor on 5 |
| Spinlock.ExampleInsert6 | day17_test.go:111-113 | then 0 5 2 4 3 6 1, cursor on 6 |
| Spinlock.ExampleInsert7 | day17_test.go:115-117 | then 0 5 7 2 4 3 6 1, cursor on 7 |
| Spinlock.ExampleInsert8 | day17_test.go:119-121 | then 0 5 7 2 4 3 8 6 1, cursor on 8 |
| Spinlock.ExampleInsert9 | day17_test.go:123-125 | then 0 9 5 7 2 4 3 8 6 1, cursor on 9 |
| Spinlock.AfterCursor | day17_test.go:131 | the value after the cursor is the value of the element advanceCursor moves to |
| Spinlock.ExampleAfterCursor | day17_test.go:123-125 | after the ninth insert the value after the cursor is 5 |
| Spinlock.ExampleCursorOf | day17_test.go:135-143 | after insertN(9) cursorOf finds 4, 0 and 1 |
| Duet.Touch | day18_test.go:47-53 | valueOf reads every register as before, keeps every register, and stores a 0 in an unset register it reads |
| Duet.Reg | day18_test.go:38-45 | getRegister's value: the register's value, or 0 for an unset register; ExecEffects states the instructions through it |
| Duet.Value | day18_test.go:47-53 | valueOf: an operand that strconv.Atoi reads is that number, any other is the register its first character names |
| Duet.GoRemIsRemainder | day18_test.go:101 | Go's `%` gives the remainder of truncated division: dividend = divisor * quotient + remainder, the remainder smaller than the divisor and of the dividend's sign |
| Duet.Arith | day18_test.go:87-101 | the value set, add, sub, mul and mod store in their target; ExecEffects states the instructions through it |
| Duet.Exec | day18_test.go:58-119 | an instruction keeps every register, counts one mul for mul and one send for snd, and queues the value of X for snd and nothing otherwise |
| Duet.ExecEffects | day18_test.go:58-119 | snd queues and moves on; set, add, sub, mul and mod store their result in register X alone and move on; jgz and jnz jump by Y when X is positive or non-zero and move on otherwise; rcv takes the first queued value into X, or sets pc to MaxInt32 when nothing is queued; a line neither pattern accepts changes nothing |
| Duet.ProgramLength | day18_test.go:122-126 | execInstructions runs at most every line, dropping one trailing empty line |
| Duet.Run | day18_test.go:121-130 | a run halts only with pc past the program, reports a negative pc or a zero divisor where Go panics, only adds to the counters and only appends to the queue it sends on |
| Duet.RunStep | day18_test.go:127-129 | with pc inside the program, running is one instruction followed by running on |
| Duet.RunWithMoreFuel | day18_test.go:127-129 | more fuel changes nothing once a run has stopped for another reason |
| Duet.Overwrite | day18_test.go:91 | storing over a register getRegister may have just set to 0 is storing over the original |
| Duet.DuetCpu.constructor | day18_test.go:27-32 | a new cpu holds its id, register p set to the id, pc 0, empty queues and zero counters |
| Duet.DuetCpu.GetRegister | day18_test.go:38-45 | getRegister returns the register's value, or 0 for an unset register, which it then stores |
| Duet.DuetCpu.ValueOf | day18_test.go:47-53 | valueOf returns the operand's value and leaves the registers as Touch describes |
| Duet.DuetCpu.ExecInstruction | day18_test.go:58-119 | the cpu's new state is Exec of its old state and the instruction |
| Duet.DuetCpu.ExecSnd | day18_test.go:64-68 | snd's new state is Exec's |
| Duet.DuetCpu.ExecRcv | day18_test.go:69-76 | rcv's new state is Exec's |
| Duet.DuetCpu.ExecJump | day18_test.go:103-114 | jgz's and jnz's new state is Exec's |
| Duet.DuetCpu.ExecArith | day18_test.go:83-102 | set, add, sub, mul and mod's new state is Exec's |
| Duet.DuetCpu.Combine | day18_test.go:87-102 | the value stored in the target is the arithmetic result of the target's old value and the source |
| Duet.DuetCpu.ExecInstructions | day18_test.go:121-130 | the loop's status and new state are Run's |
| Duet.Literals | day18_test.go:48 | strconv.Atoi reads the operands of the tests: 0, 1, 2, 5, 10 and -10 as numbers, and a as no number |
| Duet.JumpExamples | day18_test.go:271-316 | jgz 1 10 goes to 10, jgz a -10 with a = 1 to -9, jgz 0 10 to 1, jgz a 10 with a = -1 to 2, jnz a 10 with a = -1 to 11 |
| Duet.MulExampleStep1 | day18_test.go:366-376 | the first instruction of the day 23 example gives the state the next step starts from |
| Duet.MulExampleStep2 | day18_test.go:366-376 | the second instruction gives the next state |
| Duet.MulExampleStep3 | day18_test.go:366-376 | the third instruction, a mul, gives the next state and counts one mul |
| Duet.MulExampleStep4 | day18_test.go:366-376 | the fourth instruction gives the next state |
| Duet.MulExampleStep5 | day18_test.go:366-376 | the fifth instruction gives the next state |
| Duet.MulExampleStep6 | day18_test.go:366-376 | the sixth instruction gives the last state |
| Duet.MulExampleCountsOneMul | day18_test.go:364-377 | the day 23 example halts after six instructions having multiplied once |
| Routing.Reverse | day19_test.go:23-36 | the reverse of one of the four directions is another direction, its negation |
| Routing.ReverseUndoes | day19_test.go:23-36 | reversing twice gives the direction back, and a step followed by a step in reverse returns to the start |
| Routing.ExtendsTrans | day19_test.go:83-85 | collecting letters then more letters still extends the first letters |
| Routing.ByteAt | day19_test.go:68-73 | byteAt is 'x' off the top or left edge, and otherwise the diagram's byte, or the panic of an index beyond a row or below the last row |
| Routing.Step | day19_test.go:75-113 | one turn of sendPacket's loop: a move keeps one of the four directions and goes one cell that way |
| Routing.Turn | day19_test.go:87-102 | at a '+' the peek loop never stops the packet: it moves on keeping its letters or panics |
| Routing.TurnTakesFirst | day19_test.go:87-102 | a '+' takes the first direction, in the order of the adjacent cells, that is neither the way back nor a dead end, and panics exactly when every direction is rejected |
| Routing.StepMeaning | day19_test.go:75-113 | one turn of the loop: a blank and only a blank stops the packet, lines and letters are crossed straight on with only letters collected, a '+' turns onto a line without collecting, and any other byte panics |
| Routing.StepCollects | day19_test.go:79-85 | one turn of the loop collects nothing or the capital letter it crosses |
| Routing.Walk | day19_test.go:75-113 | the walk keeps a packet with one of the four directions |
| Routing.WalkCollects | day19_test.go:67-114 | the letters collected by sendPacket only grow, by capital letters |
| Routing.WalkReturns | day19_test.go:75-106 | sendPacket returns only off the top or left edge or on a blank |
| Routing.WalkThrough | day19_test.go:75-113 | a turn of the loop that moves on hands the walk over to the next packet |
| Routing.WalkHalts | day19_test.go:75-113 | a turn that does not move ends the walk there |
| Routing.WalkMoreFuel | day19_test.go:75-113 | a walk that ended within its fuel ends the same way with any more fuel |
| Routing.RoutingTable.constructor | day19_test.go:53-65 | the table holds one row per line and the packet enters at the first '|' of the top row, heading down, with no letters |
| Routing.RoutingTable.SendPacket | day19_test.go:67-114 | sendPacket moves the packet exactly as the walk from its old state, and reports how it ended |
| Routing.NoEntry | day19_test.go:61-75 | a top row without a '|' enters left of the diagram, so the packet returns at once with no letters |
| RoutingExamples.TurnFirst | day19_test.go:88-97 | the peek loop takes direction j when every direction before it is rejected |
| RoutingExamples.ExampleWalk | day19_test.go:117-131 | any table with the test diagram's bytes walks the packet from column 4 of the top row to the left edge, collecting ABCDEF |
| RoutingExamples.ExampleLetters | day19_test.go:117-131 | the test diagram's entry is column 4 and, given at least 38 turns of the loop, the packet collects ABCDEF |
| Fractal.SqrtFrom | day21_test.go:29-31 | the integer square root s of n: s * s <= n < (s + 1) * (s + 1) |
| Fractal.ImageSize | day21_test.go:29-31 | imageSize is the integer square root of the pixel count: its square is at most the count, and the next number's square is above it |
| Fractal.ImageSizeOfSquare | day21_test.go:29-31 | imageSize of k * k pixels is k |
| Fractal.Strip | day21_test.go:107 | the replacer leaves no '\n' or '/' and never lengthens the text |
| Fractal.StripClean | day21_test.go:107 | a text without separators is left as it is |
| Fractal.StoreImage | day21_test.go:106-117 | storeImage always gives a square image |
| Fractal.StringImage | day21_test.go:77-104 | stringImage's output is size * size bytes, or size * (size + 1) with newlines |
| Fractal.StringImageAt | day21_test.go:84-100 | stringImage puts pixel (row, col) at row * width + col, and a newline at the end of each row when asked |
| Fractal.StoreImageAt | day21_test.go:111-115 | storeImage reads pixel (r, c) from index r * k + c of a separator-free text of k * k pixels |
| Fractal.StringOfStore | day21_test.go:77-117 | packing a separator-free text of k * k pixels and writing it out again gives the text back |
| Fractal.StoreOfString | day21_test.go:77-117 | writing an image out and packing the text again gives the image back |
| Fractal.StripJoin | day21_test.go:107 | rows written with separators between them strip down to the rows one after another |
| Fractal.StoreRows | day21_test.go:106-117 | k rows of k pixels joined by '/' or '\n' pack into those rows |
| Fractal.StringImageRows | day21_test.go:77-104 | stringImage writes the rows one after another, each followed by '\n' when asked |
| Fractal.Mirror | day21_test.go:33-47 | the mirror is a square image of the same size |
| Fractal.Mirrors | day21_test.go:33-47 | imageMirrors gives the image and its mirror; FractalExamples.ExampleMirrors states the test's pair |
| Fractal.Rotate | day21_test.go:54-62 | a quarter turn is a square image of the same size |
| Fractal.Rotations | day21_test.go:49-65 | imageRotations gives four square images of the same size |
| Fractal.Permutations | day21_test.go:67-75 | imagePermutations gives eight square images of the same size |
| Fractal.MirrorMirror | day21_test.go:33-47 | mirroring twice gives the image back |
| Fractal.RotateFour | day21_test.go:49-65 | four quarter turns give the image back |
| Fractal.MirrorRotate | day21_test.go:33-65 | mirroring a turned image is turning the mirror image three times |
| Fractal.PermutationsClosed | day21_test.go:67-75 | rotating or mirroring any permutation of an image gives another of them |
| Fractal.PermutationSymmetric | day21_test.go:67-75 | being a rotation or mirror image of another image is symmetric |
| Fractal.KeyInjective | day21_test.go:138-185 | different square images have different rule keys |
| Fractal.AddRule | day21_test.go:155-157 | storing a rule sets the result under every permutation's key and leaves every other key |
| Fractal.RuleMatches | day21_test.go:155-186 | a chunk finds the result of a pattern it is a rotation or mirror of, and a chunk not found before finds a newly stored rule only if it is |
| Fractal.LastArrow | day21_test.go:134 | the greedy `(.*)` splits at the last " => " |
| Fractal.MatchRuleOf | day21_test.go:134-149 | a line built as pattern, " => ", result splits back into the two when the result holds no '=' |
| Fractal.MatchRule | day21_test.go:134 | the rule regexp splits a line at its last " => "; MatchRuleOf states a written rule splits back into its pattern and result |
| Fractal.RulesOf | day21_test.go:141-161 | NewFractalArt's rules, when it does not panic, map every key to a square image |
| Fractal.Pluck | day21_test.go:119-123 | pluckImage gives a size x size square |
| Fractal.ChunkSizes | day21_test.go:171-179 | chunks are 2 (next 3) for an even size, else 3 (next 4) when 3 divides the size, and ZoomAndEnhance panics exactly when neither divides it |
| Fractal.Enhanced | day21_test.go:167-194 | the image after ZoomAndEnhance, when it does not panic, is square |
| Fractal.EnhancedAt | day21_test.go:183-192 | pixel (a, b) of chunk (cr, cc) of the new image is pixel (a, b) of that chunk's rule result |
| Fractal.EnhancedSize | day21_test.go:180-182 | the new image has size * next / chunk rows |
| Fractal.EnhancedOneChunk | day21_test.go:167-194 | an image that is a single chunk becomes its rule result |
| Fractal.RowPixelsBound | day21_test.go:199-203 | a row has at most its length in pixels on, all of them exactly when every pixel is '#' |
| Fractal.PixelsOnBound | day21_test.go:196-206 | at most every pixel is on |
| Fractal.ToImage | day21_test.go:18-27 | the pixels of a square array read as an image |
| Fractal.CopyImage | day21_test.go:125-131 | copyImage writes the size x size window of src at (dstRow, dstCol) of dst and leaves the rest |
| Fractal.PluckImage | day21_test.go:119-123 | pluckImage's fresh storage holds the window Pluck describes |
| Fractal.FillChunk | day21_test.go:185-190 | one pass of the chunk loop fills the chunk from its rule, or reports the missing rule that makes the source panic |
| Fractal.FillChunkRow | day21_test.go:184-191 | the inner loop fills one row of chunks, or reports a chunk without a rule |
| Fractal.EnhancedFromFilled | day21_test.go:182-193 | once every chunk is filled the new image is the enhanced image |
| Fractal.FractalArt.constructor | day21_test.go:136-139 | a fractal art holds the given image and rules |
| Fractal.FractalArt.Image | day21_test.go:163-165 | Image() writes the rows of the image one after another, each followed by a newline |
| Fractal.FractalArt.ZoomAndEnhance | day21_test.go:167-194 | ZoomAndEnhance replaces the image by Enhanced of it, and where the source panics reports it and leaves the image |
| Fractal.FractalArt.PixelCount | day21_test.go:196-206 | PixelCount counts the pixels that are '#' |
| Fractal.StoreRule | day21_test.go:155-157 | the loop stores the result under each permutation's key |
| Fractal.NewFractalArt | day21_test.go:141-161 | NewFractalArt returns nil exactly where the source panics, and otherwise the starting image with the rules read from the text |
| FractalExamples.ExamplePack | day21_test.go:210-230 | "#..#....." packs into "#..", "#..", "..." and writes back as itself, or with newlines as "#..\n#..\n...\n" |
| FractalExamples.ExampleMirrors | day21_test.go:232-241 | imageMirrors of "#..#....." is it and "..#..#..." |
| FractalExamples.ExampleRotations | day21_test.go:243-254 | imageRotations of "#..#....." are the four images the test lists |
| FractalExamples.ExamplePermutations | day21_test.go:256-272 | imagePermutations of "#..#....." are the eight images the test lists |
| FractalExamples.ExampleNewFractalArt | day21_test.go:278-283 | NewFractalArt("") has no rules and the image ".#.\n..#\n###\n" |
| FractalExamples.ExampleRules | day21_test.go:286-293 | NewFractalArt reads the two test rules |
| FractalExamples.ExampleTestRules | day21_test.go:286-293 | the rules read hold what the two ZoomAndEnhance tests need |
| FractalExamples.ExampleFirstZoom | day21_test.go:295-301 | one ZoomAndEnhance gives "#..#\n....\n....\n#..#\n" with 4 pixels on |
| FractalExamples.SecondZoomChunk | day21_test.go:303-310 | each of the four 2 x 2 chunks of the 4 x 4 image finds the small rule's result |
| FractalExamples.EnhancedUniform | day21_test.go:183-192 | when every chunk finds the same result the new image is copies of it |
| FractalExamples.ExampleSecondZoom | day21_test.go:303-310 | a second ZoomAndEnhance gives "##.##.\n#..#..\n......\n##.##.\n#..#..\n......\n" with 12 pixels on |
| Virus.TurnTables | day22_test.go:13-30 | the two tables are the quarter turns of the four unit vectors, undo each other, and four left turns come back round |
| Virus.TurnLeft | day22_test.go:18-23 | virusTurnLeft's table: up to left, left to down, down to right, right to up, anything else to the zero vector; TurnTables states these are the quarter turns |
| Virus.TurnRight | day22_test.go:25-30 | virusTurnRight's table, the other way round; TurnTables states it undoes TurnLeft |
| Virus.NodeStatus | day22_test.go:66-72 | a node never stored is clean |
| Virus.Bursted | day22_test.go:74-84 | a burst flips the current node between infected and clean and nothing else, counts an infection exactly when the node was clean, turns right on an infected node and left otherwise, and steps forward |
| Virus.BurstMovesOneCell | day22_test.go:74-84 | a burst moves the carrier to a neighbouring node, still facing one of the four directions |
| Virus.Bursts | day22_test.go:154-155 | the test's loop of n bursts; BurstsBounds states what n bursts can infect |
| Virus.BurstsBounds | day22_test.go:154-157 | n bursts add at most n infections and never remove one |
| Virus.SporificaVirus.ReadMap | day22_test.go:54-61 | the loops store exactly the map's '#' cells, as infected nodes centred on the offset |
| Virus.SporificaVirus.constructor | day22_test.go:48-64 | NewSporificaVirus faces up at the origin with no infections, and a node is infected exactly when the map has '#' there |
| Virus.SporificaVirus.Burst | day22_test.go:74-84 | the carrier after Burst is Bursted of the carrier before |
| Virus.ExampleMap | day22_test.go:88-110 | the test map has offset 1, infected nodes at (1, 1) and (-1, 0), and a clean origin |
| Virus.ExampleFirstBurst | day22_test.go:114-130 | from the test map the first burst infects the origin, turns left, steps to (-1, 0) and counts one infection |
| Virus.ExampleSecondBurst | day22_test.go:132-150 | the second burst cleans (-1, 0), turns right, steps to (-1, 1) and still counts one infection |
| Bridges.OtherPlug | day24_spec.rb:46-50 | other_plug succeeds exactly when the component has the value on a port, and returns the second port when the first matches, else the first |
| Bridges.Strength | day24_spec.rb:38-40 | a component's strength is the sum of its two ports |
| Bridges.Matches | day24_spec.rb:42-44 | match? holds when either port has the value; OtherPlug and OtherPlugReturns state the port across from it |
| Bridges.OtherPlugReturns | day24_spec.rb:46-50 | the other port of the other port is the value again |
| Bridges.BridgeStrengthAppend | day24_spec.rb:12-14 | the strength of two bridges joined end to end is the sum of their strengths |
| Bridges.BridgeStrength | day24_spec.rb:12-14 | Bridge#strength sums its components' strengths; BridgeStrengthAppend, BridgeStrengthCons and NonNegativeStrength state it |
| Bridges.BridgeStrengthCons | day24_spec.rb:12-40 | a bridge's strength is its first component's port sum plus the strength of the rest |
| Bridges.RemoveAt | day24_spec.rb:69 | taking the used component away leaves one fewer component |
| Bridges.RemoveAtMultiset | day24_spec.rb:69 | exactly one copy of the used component is taken away and nothing else |
| Bridges.Prefixed | day24_spec.rb:72-74 | each bridge found from the next plug is extended in front by the used component, in order |
| Bridges.BridgesFrom | day24_spec.rb:66-75 | the bridges found by visiting the components from index i on, in order; InBlockIn and InFromBlock state what it lists |
| Bridges.AllBridges | day24_spec.rb:64-77 | bridges from a plug: the bridges every matching component starts; ListedAreBuildable, BuildableAreListed and BridgesAreBuildable state they are exactly the buildable chains |
| Bridges.InBlockIn | day24_spec.rb:66-75 | a bridge found while visiting one component is in the list built from any earlier position |
| Bridges.InFromBlock | day24_spec.rb:66-75 | every bridge in the list comes from the visit of some component at or after the position |
| Bridges.ListedAreBuildable | day24_spec.rb:64-77 | every bridge that bridges lists is a chain of distinct available components whose ports line up from the starting plug |
| Bridges.BuildableAreListed | day24_spec.rb:64-77 | every such chain is listed by bridges |
| Bridges.BridgesAreBuildable | day24_spec.rb:64-77 | bridges lists exactly the buildable bridges |
| Bridges.MaxBy | day24_spec.rb:80-84 | max_by gives nil exactly for an empty list, and otherwise a listed bridge whose key no listed bridge exceeds |
| Bridges.MaxByFirst | day24_spec.rb:80-84 | max_by keeps the first of equal keys: every bridge listed before its choice has a smaller key |
| Bridges.LastBeatsInit | day24_spec.rb:80-84 | when max_by picks the last bridge, its key is larger than every earlier one |
| Bridges.Strongest | day24_spec.rb:79-81 | strongest is max_by strength over bridges; StrongestIsStrongest states it is a buildable bridge no other beats |
| Bridges.StrongestIsStrongest | day24_spec.rb:79-81 | strongest is nil exactly when no bridge can be built, and otherwise a buildable bridge that no buildable bridge outweighs |
| Bridges.LongestKeyOrder | day24_spec.rb:84 | with strengths below one million, the key length * 1000000 + strength orders bridges by length, then strength |
| Bridges.Longest | day24_spec.rb:83-85 | longest is max_by length, then strength, over bridges; LongestIsLongest states it is a longest buildable bridge, strongest among those |
| Bridges.LongestIsLongest | day24_spec.rb:83-85 | with strengths below one million, longest is a buildable bridge as long as any, and the strongest of that length |
| Bridges.NonNegativeStrength | day24_spec.rb:12-14 | a bridge of components with non-negative ports has non-negative strength |
| BridgesExamples.ExampleBridges | day24_spec.rb:105-109 | bridges(0) on the test components lists eleven bridges, which are spelled out |
| BridgesExamples.ExampleStrongest | day24_spec.rb:111-115 | strongest(0) on the test components has strength 31 |
| BridgesExamples.ExampleLongest | day24_spec.rb:117-121 | longest(0) on the test components has strength 19 |
| BridgesExamples.ExampleBuilder | day24_spec.rb:89-121 | on the literal test components, bridges(0) has 11 bridges, strongest(0) strength 31 and longest(0) strength 19 |

## Left out

- Trampoline.CpuTrampolineMaze.constructor: requires every field to be an integer (`ParseOffsets` gives a value). NewCpuTrampolineMaze panics on a field strconv.Atoi rejects (day5_test.go:22-25); ParseOffsets states that case as None, but the constructor does not return it.
- Trampoline.CpuTrampolineMaze.Run: requires the address to lie inside the maze, so an empty maze is excluded. On an empty maze Go's first tick indexes past the end and panics (day5_test.go:31-39).
- Trampoline.CpuTrampolineMaze.Run2: the same requirement; Go's first tick2 panics on an empty maze (day5_test.go:47-59).
- Stream.Score: requires a non-empty stream starting with `{`. parseGroup panics on any other first character (day9_test.go:27-29) and indexes past the end of an empty stream. It also requires a stream on which parseGroup returns: on one that ends inside a child group or inside garbage, Go never returns, and GroupOutcome states that case as `Diverges`.
- Stream.ParseGroup: the same two requirements.
- Stream.ParseGroup: the stream is a string of characters, where parseGroup and parseGarbage index Go's `[]byte` (day9_test.go:11-16). On non-ASCII text the lengths parseGroup and parseGarbage return count characters in the model and bytes in Go. The scores are the same, since every byte the parser treats specially is ASCII and a `!` skipping the first byte of a multi-byte character leaves only continuation bytes, which the parser passes over.
- KnotHash.ReverseSubSlice: requires a start and length on which reverseSubSlice does not panic (`Reversal` gives a list). Any length of at most 1, negative ones included, returns the list unchanged whatever the start. A longer one panics on a slice bound when the start is negative or past the end, or when start + length is more than twice the list's length; Reversal states that case as None.
- KnotHash.KnotHash.HashStep: requires a length on which hashStep does not panic (`Step` gives a state). Step states the panics as None: the empty list's `%` by zero, and the slice-bound panics of reverseSubSlice. A negative length leaves the list as it is; the new position is position + length + skip under Go's `%` (StepPosition), strictly between -n and n, and negative only when that sum is negative. Only then does a later length of 2 or more panic on the negative start (NegativePositionPanics); ExampleNegativeLength runs 3, -1, 2 on five without a panic.
- KnotHash.KnotHash.Hash: requires lengths none of whose steps panic (`Steps` gives a state) and a list of at least 2 numbers, where Go's `list[0] * list[1]` panics on a shorter one. HashOf states both panics as None.
- KnotHash.KnotHash.constructor: takes a size of type `nat`, so a negative size, where Go's `make([]int, size)` in NewKnotHash panics (day10_test.go:19), is excluded rather than modelled. KnotHash.Initial, the starting state as a value, likewise takes a `nat`. KnotHash.HashOf takes any integer and states the negative size as None.
- Spiral.LocationToCoordinates: requires a location of at least 1. On a lower one Go takes `% (root - 1)` with root 1 and panics on the division by zero (day3_test.go:68).
- Spiral.DistanceToLocation: the same requirement, since it calls locationToCoordinates.
- MemoryBanks.MemoryBankSet.Tick: requires a bank holding at least 0. On an empty list, or one of negative banks only, findIndexOfLargest gives -1 and Go panics on `banks[-1]`; IndexOfLargest states that -1.
- MemoryBanks.MemoryBankSet.Debug: requires a non-empty list with no negative bank. Go panics on the empty list. On a list with a negative bank and a non-negative one Go still ends, but the model does not state its answer.
- Duet.DuetCpu.ExecInstruction: requires no `mod` by zero, where Go panics. ExecInstructions reports that case as the status `DivideByZero`.
- Turing.TuringMachine.Step: requires the cell under the cursor to hold 0 or 1, since Go indexes a state's two branches with the cell's value and panics on any other value (day25.go:148-159).
- Turing.TuringMachine.Run: requires writes of 0 or 1 and a binary tape, for the same reason.
- Promenade.ProgramDance.constructor: requires a size from 0 to 26. NewProgramDance panics with "can't create a dance that big" on a size above 26 (day16_test.go:19-21), and `make` panics on a negative size; the model has no error result for either.
- Promenade.ProgramDance.DanceNPartner: requires every program byte below 200 and every step a partner step. Go's 200-slot table panics on a larger byte, and Go indexes the nil match of a non-partner step and panics. The partner-dance memo cache is only an optimisation and is not modelled; the result is.
- Duet.Run: stops after `fuel` instructions, where Go's execInstructions loops for as long as pc stays below the program length. A negative pc and a zero divisor are reported as the statuses `NegativePc` and `DivideByZero`, where Go panics on the slice index or the `%`/`/`.
- Duet.DuetCpu.ExecInstructions: the same fuel bound and the same statuses in place of Go's panics.
- Duet.DuetCpu.ExecInstruction: Go's 64-bit `int` wrap-around in add, mul and mod is not modelled; register values are unbounded integers. No Go module of the model wraps at 64 bits: every `int` is an unbounded integer. This covers the register arithmetic of Registers, the spreadsheet's max - min and its row and sheet sums (Spreadsheet), the tower's weight sums (Tower), the stream's score (Stream), the maze's offsets and step count (Trampoline), the bank values (MemoryBanks), the knot hash's position and skip (KnotHash), the generators' products (Generator, where ProductFits shows they stay inside 64 bits for seeds and factors below 2147483647), and the arithmetic of Firewall, Spiral, Spinlock, Promenade, Disk, Fractal, Virus, Pipes, Routing and Turing. The puzzle inputs stay far from 2^63. Ruby's integers (Captcha, Bridges) are unbounded, so the model's integers match them.
- Duet.DuetCpu.ExecSnd: the day 18 channels have capacity 100 (day18_test.go:28, day18_test.go:139), so a 101st unreceived `snd` blocks in Go. The model's outgoing queue is an unbounded sequence.
- Duet.DuetCpu.ExecRcv: rcv's `time.After` timeout on an empty inbox is modelled as the deterministic branch that stores MaxInt32 in pc. The two-CPU goroutine pairing, the cross-wired channels and deadlock detection are concurrency and are not modelled. Instructions are given as decoded datatypes; the regexp decoding of instruction text is not modelled.
- Text.Atoi: has no range error. Go's strconv.Atoi also fails on a digit string beyond the int64 range, and day8_test.go:43-51 panics on that error.
- Registers.Panics: because of the Text.Atoi gap, misses the out-of-range literal case.
- Pipes.PipeMapper.ParseRecord: requires the record line to match the pattern. Go panics on a nil regexp match instead.
- Tower.NewProgramTree: requires every line to match programSelfDescriptionRe (`Parsable`), where Go indexes the nil match and panics (day7_test.go:99-101). It also requires every child name to have a line, where Go panics on an unknown child. Go's map iteration order is modelled as the set of possible outcomes.
- Turing.RunConfig: requires every write of the blueprint to be 0 or 1. Go accepts any `\d+` write (day25.go:80-85) and panics only when a non-binary cell is read back as a branch index.
- Firewall.Trip.FromDescriptor: requires no negative depth (`ValidDepths`). NewTrip's `scannerStates[sd]` panics on a negative depth (day13_test.go:64-66); the model has no error result for it.
- Firewall.Firewall.TripSeverity: requires `ValidDepths` too, because it builds its trip with NewTrip, so the same panic is excluded rather than stated.
- Firewall.Firewall.TripSeverityZero: takes a ghost `bound` at which the packet gets through, because the source loops forever when every delay is caught. It requires no negative depth (`ValidDepths`), like TripSeverity. The descriptor map is given directly; NewFirewall's text splitting is not modelled.
- Spinlock.AfterCursor: wraps from the last element to the front. Go's `s.cursor.Next().Value` (day17_test.go:131) panics when the cursor is on the last element. The container/list buffer is modelled as a sequence plus the cursor's index, so pointer aliasing is not captured. The test with 2017 inserts, where the value after 2017 is 638 (day17_test.go), is not stated: the solver cannot unfold 2017 concrete inserts within the resource limit. The first nine inserts are proved one by one.
- Virus.SporificaVirus.Burst: the test of 70 bursts giving 41 infections, and the one of 10000 bursts, are not stated: the solver cannot unfold 70 concrete bursts within the resource limit. The first two bursts are proved, and so are the general properties of one burst.
- Virus.SporificaVirus.ReadMap: the map is a string of characters, where NewSporificaVirus takes the size from `len(nodeMapLines[0])` and the columns from `[]byte(line)`, both counted in bytes (day22_test.go:51-57). On non-ASCII text the model counts characters, so the offset and the columns of the '#' cells can differ from Go's; on ASCII maps, which is all the puzzle input holds, they agree. The same holds for Virus.SporificaVirus.constructor.
- Fractal.StoreImage: the image is a string of characters, where storeImage indexes `[]byte(image)` and imageSize counts its bytes (day21_test.go:106-115). On non-ASCII text the model packs characters where Go packs bytes; images made of '#' and '.', as the puzzle's are, pack the same.
- Routing.RoutingTable.SendPacket: runs for at most `fuel` turns of its loop, since a diagram can send the packet round a cycle forever. Go's panics (an unrecognised byte, no move at a '+', an index beyond a row or below the last row) are the status `Failed`. The diagram's bytes are modelled as characters. The test's heredoc indentation stripping is not modelled: the example diagram is given as the rows it produces, the one-space indent removed from every line, so the closing line of two tabs becomes a last row of one tab, which the packet never reaches.
- Routing.Reverse: requires one of the four directions. Go panics on any other value, and sendPacket only ever passes a direction.
- Disk.RegionCount: NewDisk's hashing (day14_test.go:19-26) calls a fullHash that is not part of this model, so a Disk is built from given hex rows. The key-based tests giving 8108 used squares and 1242 regions therefore cannot be stated.
- Generator.Judge: requires two distinct generator objects, because one object passed twice aliases in Go. The test of 40,000,000 rounds giving 588 is not evaluated; a five-round example is proved instead. Go's `&` with low16BitMask is stated as equal low 16 bits, proved equal to a bitwise AND reference.
- Passphrase.Permutations: the permutation library's listing order is not modelled; the orderings form a set, proved to be exactly the rearrangements of the word. Go permutes the bytes of `[]byte(word)`, while the model permutes characters. The two agree on ASCII words, which is all the puzzle input holds. On other text they differ: the words `é\u0083` and `Ã©` are the UTF-8 bytes C3 A9 C2 83 in two orders, so Go's isValid2 rejects the phrase `é\u0083 Ã©` and the model accepts it.
- Fractal.ImageSize: imageSize's float `math.Sqrt` is an integer floor square root, exact on the square images the program builds.
- Captcha.CaptchaSolver.Solution1: the script's `puts` of the puzzle answers is I/O and is not modelled.
- Bridges.AllBridges: BridgeComponent.builder's text parsing is not modelled; components are given as values. Ruby's `components - [component]` removes by object identity, which is modelled as removing the component at its index.
- Spiral.Location: the test helper coordinatesToLocation (day3_test.go:114) is not part of this model; its cases are stated about location instead. The float `math.Abs`/`math.Pow` are integer operations.
- The day 11 hex walk and the day 20 particles are not modelled. Both rest on floating point (a square root of 3 with a 0.1 threshold, and ParseFloat with Euclidean magnitudes).
- Puzzle input files (`ioutil.ReadFile`, `File.read`), `fmt`/`pretty` output, insertN's progress printing, and the Ginkgo/RSpec scaffolding are I/O and are not modelled.
- The mapset sets of days 4, 6 and 12 are Dafny sets.
