# EduPlay Offline — a Dafny model of the game logic

EduPlay Offline is a React Native app of fifteen learning mini-games for children aged 3 to 12. It also has a home screen that creates the player and a parent dashboard. All state lives on the device: in SQLite on phones (`src/database/db.ts`) or in a JSON document in `localStorage` in the browser (`src/database/dbWeb.ts`).

This project models the logic behind the screens:

- **Shared utilities:**
  - the integer utilities of `src/utils/math.ts`: random range, Fisher–Yates shuffle, question generator, time and number formatting, star rating;
  - the difficulty tiers of `src/utils/difficulty.ts`;
  - the WAV and base64 encoder of `src/utils/wavTone.ts`.
- **Storage:**
  - both storage backends, with the browser store as the reference state;
  - the in-memory progress cache of `src/store/progressStore.ts`.
- **Games:** the rules of fourteen mini-games. Each is a state datatype with one pure function per handler.
- **Screens:** the parent dashboard and the first-run setup of the home screen.

Each source file is one Dafny module, in one file:

| module | file | models |
|---|---|---|
| `Common` | common.dfy | `Option`, `Distinct`, the `filter`/`includes` list idioms, the `Save` the games pass to `updateGameProgress` |
| `Strings` | strings.dfy | `trim`, ASCII case mapping, `String(n)`, `padStart`, `parseInt` with and without a radix, `join` |
| `Difficulty` | difficulty.dfy | `src/utils/difficulty.ts` |
| `MathUtil` | mathutil.dfy | `src/utils/math.ts` |
| `WavTone` | wavtone.dfy | `src/utils/wavTone.ts` |
| `DbWeb` | dbweb.dfy | `src/database/dbWeb.ts` |
| `DbNative` | dbnative.dfy | `src/database/db.ts` (the statements it sends and how it reads results) |
| `ProgressStore` | progressstore.dfy | `src/store/progressStore.ts` |
| `CodeBlocks`, `LogicTown`, `NumberHop`, `ColorMatch`, `LetterPop`, `AnimalSound`, `FruitFinder`, `ChefFractions`, `ArtDetective`, `ScienceLab`, `EcoGuardians`, `WorldExplorer`, `StoryBuilder`, `MathMonsters` | one file each | `src/games/<game>/index.tsx` |
| `ParentDashboard` | dashboard.dfy | `src/screens/ParentDashboard.tsx` |
| `HomeScreen` | homescreen.dfy | `src/screens/HomeScreen.tsx` |

How the source's effects become Dafny:

- **Random numbers** become explicit draw parameters: `Math.floor(Math.random() * n)` is `draw % n`.
- **React state updates** are transitions from one immutable `State` value to the next.
- **`updateGameProgress`** calls are returned as a `Save` value, or applied to a `DbWeb.Store` where storage is the point.
- **Timers:**
  - A `setTimeout` callback is applied at once where a reward modal or result screen covers the game until it fires (Math Monsters' reward timer is part of `MathMonsters.Settle`).
  - Where the screen stays live until a timer fires, the timer is its own transition: the colour parade's refresh (`ColorMatch.Tap`, then `ColorMatch.StartParade`), Letter Pop's refresh (`LetterPop.OnPop`, then `LetterPop.Refresh`) and Eco Guardians' mission close (`EcoGuardians.CloseMission`).
  - The reward timers of Science Lab, Eco Guardians and World Explorer (`ScienceLab.FinishLevel`, `EcoGuardians.FinishLevel`, `WorldExplorer.FinishLevel`) are also their own transitions. Their reward modal covers the game, but its close button can hide the modal before the timer fires, and the game is live again from then on.

## Model

| member | source | states |
|---|---|---|
| Common.RemoveFirst | src/games/logicTown/index.tsx:114-117 | `indexOf` then `splice(index, 1)`: when `x` is present exactly one copy goes (multiset minus one); when it is absent the list is unchanged |
| Common.Without | src/games/chefFractions/index.tsx:64 | `filter((i) => i !== x)`: `x` is gone, every kept element was in the input, and every other input element is kept |
| Common.WithoutKeepsDistinct | src/games/scienceLab/index.tsx:94-95 | removing an item by `filter` keeps a repeat-free selection repeat-free |
| Common.WithoutDistinctCount | src/games/chefFractions/index.tsx:63-64 | deselecting an item that is selected once shortens the selection by exactly one |
| Common.WithoutAbsent | src/games/chefFractions/index.tsx:64 | filtering out an absent item changes nothing |
| Common.LevelStars | src/games/numberHop/index.tsx:91 | `Math.min(3, level)` is at most 3 and at most the level, and equals one of them |
| Common.AppendNew | src/games/worldExplorer/index.tsx:135-136 | the `includes` guard followed by append: afterwards `x` is present; a present `x` changes nothing, an absent one is appended once |
| Common.AppendNewKeepsDistinct | src/games/scienceLab/index.tsx:115-117 | recording through the `includes` guard never creates a duplicate |
| Common.DistinctSetSize | src/games/chefFractions/index.tsx:63-67 | a repeat-free list has as many distinct members as entries |
| Common.SubsetSize | src/games/ecoGuardians/index.tsx:107-119 | a subset is no larger than its superset, and one of equal size is the whole set |
| Common.DistinctWithin | src/games/worldExplorer/index.tsx:135-140 | a repeat-free record drawn from a repeat-free table is no longer than the table, and it covers the table when it is as long |
| Strings.TrimStart | src/database/dbWeb.ts:91 | the result is a suffix that does not start with white space, and everything dropped was white space |
| Strings.TrimEnd | src/database/dbWeb.ts:91 | the result is a prefix that does not end with white space, and everything dropped was white space |
| Strings.Trim | src/screens/HomeScreen.tsx:48 | `trim()` neither starts nor ends with white space, and it is empty exactly when the text was all white space |
| Strings.TrimIsSlice | src/screens/HomeScreen.tsx:57 | the trimmed name is a contiguous slice of the typed name |
| Strings.TrimPadded | src/screens/HomeScreen.tsx:57 | trimming removes exactly the white-space padding around a word |
| Strings.LowerOfUpper | src/games/fruitFinder/index.tsx:73-80 | lower-casing an upper-cased text equals lower-casing the text |
| Strings.Lower | src/games/fruitFinder/index.tsx:76-77 | `toLowerCase()` keeps the length, leaves no capital letter, and changes only capitals, each to its small letter |
| Strings.Upper | src/database/db.ts:24 | `toUpperCase()` keeps the length, leaves no small letter, and changes only small letters, each to its capital |
| Strings.UpperKeepsEnds | src/games/fruitFinder/index.tsx:76 | upper-casing a word that neither starts nor ends with white space keeps it so |
| Strings.StartsWith | src/database/db.ts:27 | `startsWith(p)` holds exactly when `p` is no longer than the text and agrees with it character by character |
| Strings.Contains | src/database/dbWeb.ts:94 | `includes(p)` holds exactly when `p` occurs at some position of the text |
| Strings.ContainsShift | src/database/dbWeb.ts:109 | away from the first position, `p` occurs in a text exactly when it occurs in the text without its first character |
| Strings.Join | src/database/db.ts:74-76 | `join(sep)` is the parts' total length plus one separator between each two neighbours, starting with the first part and ending with the last |
| Strings.NatToString | src/utils/math.ts:73 | `n.toString()` is a non-empty digit string, without a leading zero unless it is `0`, that reads back as `n` |
| Strings.NatToStringOfDigits | src/utils/math.ts:77 | printing the value of a canonical digit string gives that string back |
| Strings.PadStart2 | src/utils/math.ts:73 | `padStart(2, '0')` keeps the text as its suffix, is at least two long, and adds only zeros |
| Strings.DigitPrefix | src/screens/HomeScreen.tsx:52 | the digits `parseInt` reads: a prefix made only of digits, followed by a non-digit or by the end |
| Strings.ParseInt | src/screens/HomeScreen.tsx:52 | `parseInt(s, 10)` is `NaN` exactly when, after white space and one sign, no digit follows |
| Strings.DigitPrefixOf | src/screens/HomeScreen.tsx:52 | digits followed by a non-digit are read as exactly those digits |
| Strings.IntToString | src/screens/ParentDashboard.tsx:276 | `String(n)` is non-empty, and for `n >= 0` it is the digit string of `n` |
| Strings.ParseIntOfInt | src/screens/HomeScreen.tsx:52 | `parseInt(String(n), 10) == n` for every integer |
| Strings.ParseIntNoRadix | src/screens/ParentDashboard.tsx:278 | `parseInt(text)` with no radix agrees with radix 10 unless a `0x` prefix follows the sign; after that prefix it is `NaN` exactly when no hex digit follows |
| Strings.ParseIntNoRadixOfInt | src/screens/ParentDashboard.tsx:276-279 | the decimal text of any integer reads back as that integer even without a radix |
| Difficulty.FromSetting | src/utils/difficulty.ts:9-13 | the stored name of any tier yields that tier; anything other than `normal` is returned only when its name is stored |
| Difficulty.FromSettingExact | src/utils/difficulty.ts:11-12 | a stored value is honoured exactly when it names a tier |
| Difficulty.ScaleNeeded | src/utils/difficulty.ts:16-20 | for a positive base the requirement is at least 1 and within one of the base; normal is the base |
| Difficulty.ScaleNeededStrictlyOrdered | src/utils/difficulty.ts:16-20 | for a base of at least 2, easy < normal < hard |
| Difficulty.ScaleChoices | src/utils/difficulty.ts:23-27 | normal and hard never exceed `max`; easy never drops below 2, and exceeds `max` only when `max < 2` |
| Difficulty.ScaleChoicesOrdered | src/utils/difficulty.ts:23-27 | with base and max at least 2 every tier lies in `[2, max]`, and the count never decreases from easy to hard |
| Difficulty.ScaleChoicesBaseOneInverts | src/utils/difficulty.ts:24-26 | with base 1 the easy floor of 2 exceeds normal's 1, so the order inverts |
| Difficulty.ScaleLevel | src/utils/difficulty.ts:30-34 | the level stays positive; easy never raises it (except up to 1); hard always raises it |
| Difficulty.ScaleLevelOrdered | src/utils/difficulty.ts:30-34 | the effective level is monotone in the tier and brackets the level |
| Difficulty.ScaleMax | src/utils/difficulty.ts:37-41 | easy never drops below 2; for a base of at least 2 no tier does; the result lies within `[base - 2, base + 1]` |
| Difficulty.ScaleMaxOrdered | src/utils/difficulty.ts:37-41 | monotone in the tier, never below 2 |
| Difficulty.ScaleMaxAsymmetric | src/utils/difficulty.ts:38-39 | for a base of at least 4 easy sits two below normal but hard only one above |
| MathUtil.Random | src/utils/math.ts:2-4 | `random(min, max)` lies in `[min, max]`; a small draw selects `min + draw` |
| MathUtil.RandomReachesEvery | src/utils/math.ts:2-4 | every value of the range is produced by some draw |
| MathUtil.Swap | src/utils/math.ts:14 | the destructuring swap exchanges the two positions, leaves the rest, and is a permutation |
| MathUtil.ShuffleFrom | src/utils/math.ts:12-15 | the Fisher–Yates loop from position `i` down keeps the length and the multiset |
| MathUtil.Shuffle | src/utils/math.ts:10-17 | `shuffle(array)` returns a permutation of its input |
| MathUtil.PermutationKeepsDistinct | src/utils/math.ts:10-17 | a shuffled repeat-free list is still repeat-free |
| MathUtil.ChoiceRow | src/games/letterPopBalloons/index.tsx:68-75 | the answer row holds `count` distinct items: the target first, then others from the pool that are not the target |
| MathUtil.QuestionLevelIsScaleLevel | src/utils/math.ts:25 | the inline effective level of the question generator is `scaleLevel` |
| MathUtil.MaxOperand | src/utils/math.ts:26 | operands range up to at least 5 and at least ten times the effective level |
| MathUtil.OpBound | src/utils/math.ts:30 | the operation bound never exceeds 2 (multiplication), and easy allows only addition |
| MathUtil.OpIndex | src/utils/math.ts:31 | the drawn operation index lies in `[0, max(0, bound)]`, even when `random(0, bound)` is negative |
| MathUtil.Offset | src/utils/math.ts:57 | a wrong-answer offset lies within `±spread`, and a small draw selects `draw - spread` |
| MathUtil.CollectOptionsValid | src/utils/math.ts:55-61 | when the loop ends there are exactly four distinct options: the answer first, then non-negative wrong answers within the spread |
| MathUtil.CollectOptions | src/utils/math.ts:55-61 | the loop only appends to the options it starts with; once it stops from fewer than four it holds exactly four; with fewer draws than missing options it cannot stop |
| MathUtil.StuckStep | src/utils/math.ts:56-61 | when `answer + spread < 2` one more candidate leaves the options among the answer, 0 and 1 |
| MathUtil.CollectOptionsStuck | src/utils/math.ts:56-61 | when `answer + spread < 2` no stream of draws ends the loop |
| MathUtil.OptionsCanFinish | src/utils/math.ts:56-61 | when `answer + spread >= 2` and `spread >= 3`, some draws end the loop |
| MathUtil.BuildOptions | src/utils/math.ts:55-66 | options exist exactly when the loop ends; they are a shuffle of four distinct values containing the answer |
| MathUtil.GenerateMathQuestion | src/utils/math.ts:21-68 | operands lie in `[1, maxNum]`; the answer is the operation applied to them; the four options contain it; no question exactly when the option loop cannot end |
| MathUtil.NormalLevelTwoSubtractionHangs | src/utils/math.ts:30-61 | at level 2 on normal, `1 - 20` yields answer -19 and the option loop never ends |
| MathUtil.OrderedOperands | src/utils/math.ts:41-44 | corrected subtraction: the operands are the inputs in some order, and the difference is never negative |
| MathUtil.GenerateMathQuestionFixed | src/utils/math.ts:21-68 | with ordered operands every generated answer is non-negative; the operands lie in `[1, maxNum]`, the tier limits the operation, and the four distinct options are the answer and non-negative wrong answers within the spread; whenever the written generator's answer is already non-negative the two generators give the same question |
| MathUtil.FixedQuestionCanFinish | src/utils/math.ts:54-61 | with ordered operands some stream of draws always ends the option loop |
| MathUtil.CalculateStars | src/utils/math.ts:80-86 | 3, 2, 1 stars exactly at 90, 70, 50 percent of a positive maximum, otherwise 0 |
| MathUtil.CalculateStarsMonotone | src/utils/math.ts:80-86 | more points never earn fewer stars |
| MathUtil.FormatTime | src/utils/math.ts:70-74 | `formatTime` reads back: the digits before the colon are the whole minutes, the two after it are the remaining seconds, below 60 |
| MathUtil.Clock | src/utils/math.ts:73 | the template `${mins}:${secs padded}` is a clock text whose two parts read back as the minutes and the seconds it was given |
| MathUtil.GroupThousands | src/utils/math.ts:77 | the comma insertion only inserts commas, and groups the digits in threes from the right |
| MathUtil.FormatNumber | src/utils/math.ts:76-78 | `formatNumber(n)` with its commas removed is `n.toString()`, and the digits are grouped in threes |
| WavTone.Sextet | src/utils/wavTone.ts:54 | the `BASE64` alphabet never yields the pad character |
| WavTone.SextetValue | src/utils/wavTone.ts:54 | reading a character back finds its alphabet position |
| WavTone.SextetValueInverts | src/utils/wavTone.ts:54 | every one of the 64 positions reads back as itself |
| WavTone.EncodeGroup | src/utils/wavTone.ts:58-64 | one loop step emits four characters; the first two are never `=`; the third is `=` exactly when `b` is missing, the fourth exactly when `c` is |
| WavTone.BytesToBase64 | src/utils/wavTone.ts:55-67 | the output has `4 * ceil(n / 3)` characters |
| WavTone.AlphabetMembers | src/utils/wavTone.ts:54 | the alphabet string holds exactly the characters `A-Z a-z 0-9 + /` |
| WavTone.LastGroupPads | src/utils/wavTone.ts:57-65 | a final group of one or two bytes ends in two or one `=`, a full group in none |
| WavTone.Base64PadPositions | src/utils/wavTone.ts:57-65 | `=` occurs in exactly the last `(3 - n % 3) % 3` positions |
| WavTone.Base64InAlphabet | src/utils/wavTone.ts:61-64 | every character other than `=` comes from the alphabet |
| WavTone.Base64Chars | src/utils/wavTone.ts:57-65 | every non-pad output character is a base64 character |
| WavTone.Base64Padding | src/utils/wavTone.ts:63-64 | two `=` for `n % 3 == 1`, one for `n % 3 == 2`, none otherwise, as section 4 of RFC 4648 requires |
| WavTone.DecodeEncodeGroup | src/utils/wavTone.ts:58-64 | a group decodes to exactly the one to three bytes it encodes |
| WavTone.Base64RoundTrip | src/utils/wavTone.ts:55-67 | an RFC 4648 decoder gives back exactly the input bytes |
| WavTone.U32LE | src/utils/wavTone.ts:21-24 | `writeU32` emits four bytes, which read back little-endian as `v mod 2^32` (`U32LEReadsBack`) |
| WavTone.U32LEReadsBack | src/utils/wavTone.ts:21-24 | the four bytes read back little-endian as `v mod 2^32` |
| WavTone.U16LE | src/utils/wavTone.ts:25-28 | `writeU16` emits two bytes, which read back as `v mod 2^16` (`U16LEReadsBack`) |
| WavTone.U16LEReadsBack | src/utils/wavTone.ts:25-28 | the two bytes read back little-endian as `v mod 2^16` |
| WavTone.Ascii | src/utils/wavTone.ts:18-20 | `write(text)` emits one byte per character |
| WavTone.RiffDescriptor | src/utils/wavTone.ts:29-31 | bytes 0-11 are `RIFF`, the chunk size `36 + dataSize` and `WAVE` |
| WavTone.FormatChunk | src/utils/wavTone.ts:32-39 | bytes 12-35 describe 16-bit mono PCM at 44100 Hz: size 16, format 1, one channel, byte rate 88200, block align 2 |
| WavTone.FmtPrefix | src/utils/wavTone.ts:32-35 | the `fmt ` tag, its size 16, PCM and mono |
| WavTone.FmtRates | src/utils/wavTone.ts:36-39 | the sample rate, byte rate, block align and bit depth fields |
| WavTone.DataHeader | src/utils/wavTone.ts:40-41 | bytes 36-43 are `data` and the data size |
| WavTone.WavHeader | src/utils/wavTone.ts:29-41 | the 44-byte header holds every field at its fixed offset with the value written |
| WavTone.Amplitude | src/utils/wavTone.ts:45 | the volume is clamped to `[0, 1]`, so the amplitude lies in `[0, 32767]`: 0 for a volume of 0 or less, 32767 from 1 up |
| WavTone.NumSamples | src/utils/wavTone.ts:11 | `Math.floor(SAMPLE_RATE * durationMs / 1000)`: the largest count whose thousandfold does not exceed `SAMPLE_RATE * durationMs` |
| WavTone.DefaultAmplitude | src/utils/wavTone.ts:10-45 | the default volume 0.25 gives amplitude 8191 |
| WavTone.ClampSample | src/utils/wavTone.ts:49 | every sample fits 16 bits; one already in range is kept, others saturate at the nearer bound |
| WavTone.I16LE | src/utils/wavTone.ts:44-49 | an `Int16Array` element occupies two bytes |
| WavTone.I16LEReadsBack | src/utils/wavTone.ts:44-49 | those two bytes read back as the same signed value |
| WavTone.SampleBytes | src/utils/wavTone.ts:44-50 | the sample area has two bytes per sample |
| WavTone.SampleBytesAt | src/utils/wavTone.ts:44-50 | the bytes of sample `i` sit at offset `2i` of the sample area |
| WavTone.CreateWavBuffer | src/utils/wavTone.ts:10-52 | the buffer is `44 + 2 * numSamples` bytes long: the header, then each clamped sample at `44 + 2i` |
| WavTone.EncodeBuffer | src/utils/wavTone.ts:57-65 | the base64 text of any buffer has four characters per started group of three bytes and decodes back to the buffer |
| WavTone.WavBase64 | src/utils/wavTone.ts:70-73 | the text has `4 * ceil((44 + 2 * numSamples) / 3)` characters and decodes back to exactly the WAV buffer |
| DbWeb.InitDB | src/database/dbWeb.ts:68-88 | an empty progress table is seeded with the fixed rows, any other store is left alone; afterwards the table is never empty |
| DbWeb.InitDBSeeds | src/database/dbWeb.ts:72-82 | seeding creates fifteen rows: ids 1 to 15 in `GAME_KEYS` order, level 1, every counter 0, no play date |
| DbWeb.InitDBIdempotent | src/database/dbWeb.ts:72 | a second `initDB()` changes nothing |
| DbWeb.ProgressIndex | src/database/dbWeb.ts:162 | `find` locates the first row with the key, or reports that none has it |
| DbWeb.ProgressWithKey | src/database/dbWeb.ts:114 | the filter keeps exactly the rows with the key; its first row is the one `find` locates |
| DbWeb.SettingIndex | src/database/dbWeb.ts:96 | `findIndex` locates the first settings row with the key, or reports that none has it |
| DbWeb.SettingsWithKey | src/database/dbWeb.ts:124 | the filter keeps exactly the settings rows with the key; its first row is the one `findIndex` locates |
| DbWeb.RewardIndex | src/database/dbWeb.ts:179 | `find` locates the first reward row with the key, or reports that none has it |
| DbWeb.UnlockedRewards | src/database/dbWeb.ts:120 | the filter keeps exactly the unlocked rows |
| DbWeb.UnlockedRewardsCounts | src/database/dbWeb.ts:120 | each unlocked row is kept as many times as the table holds it, and no locked row is kept |
| DbWeb.UnlockedRewardsAppend | src/database/dbWeb.ts:120 | the filter keeps table order: filtering a joined table is joining the filtered parts |
| DbWeb.InsertByKey | src/database/dbWeb.ts:117 | inserting into a key-sorted list keeps it sorted and adds exactly that row |
| DbWeb.SortByKey | src/database/dbWeb.ts:117 | the copy is sorted by key under the comparison, and it is a permutation of the table |
| DbWeb.Classify | src/database/dbWeb.ts:91-126 | the settings upsert is recognised by its phrase, before anything else; every query branch needs the text to start with `SELECT`; the keyed progress query is recognised exactly by its three phrases and the absence of `FROM USER` |
| DbWeb.UpsertSettingRows | src/database/dbWeb.ts:95-103 | an existing key is overwritten in place, keeping its id; a new key is appended with id `length + 1` |
| DbWeb.Run | src/database/dbWeb.ts:94-127 | only the upsert changes the store, and it returns no rows; the user query returns at most the first user; an unrecognised statement returns nothing |
| DbWeb.ExecuteSQL | src/database/dbWeb.ts:90-128 | text without the upsert phrase never changes the store, and text that is neither an upsert nor a `SELECT` returns no rows |
| DbWeb.GetUser | src/database/dbWeb.ts:130-133 | the first user row, present exactly when the table is not empty |
| DbWeb.AvatarOrDefault | src/database/dbWeb.ts:141 | `avatar || 'ðŸ‘¦'`: a given non-empty avatar is kept; a missing or empty one becomes the four characters the source writes |
| DbWeb.AvatarOrDefaultFixed | src/database/db.ts:50 | the corrected fallback: a given non-empty avatar is kept, a missing or empty one becomes the one-character boy emoji |
| DbWeb.Utf8Four | src/database/dbWeb.ts:141 | the UTF-8 encoding of a code point above U+FFFF is one lead byte `F0`..`F4` and three continuation bytes, which decode back to the code point |
| DbWeb.Cp1252 | src/database/dbWeb.ts:141 | a byte read as Windows-1252 is its own code point outside the 27 remapped bytes of `80`..`9F` |
| DbWeb.DefaultAvatarIsMisreadEmoji | src/database/dbWeb.ts:141 | the stored default is the four UTF-8 bytes of U+1F466 each read as Windows-1252, so it is not the emoji |
| DbWeb.CreateUser | src/database/dbWeb.ts:135-144 | the user table becomes exactly one row with id 1; the other tables are untouched |
| DbWeb.CreateThenGetUser | src/database/dbWeb.ts:130-144 | the user just created is the one read back |
| DbWeb.GetGameProgress | src/database/dbWeb.ts:146-149 | a row is returned exactly when one has the key, and it is the first such row |
| DbWeb.ApplyPatch | src/database/dbWeb.ts:164-169 | each supplied field is overwritten and each omitted one kept; the id and key are kept, and the play date is set |
| DbWeb.UpdateGameProgress | src/database/dbWeb.ts:151-171 | only the first row with the key changes, and it is patched; a missing key leaves the store unchanged; the other tables and rows are unchanged |
| DbWeb.UpdateThenGet | src/database/dbWeb.ts:146-171 | after an update, the row read back is the old row with the patch applied |
| DbWeb.ProgressIndexAfterUpdate | src/database/dbWeb.ts:162-169 | patching the found row in place keeps it the first with its key |
| DbWeb.GetAllProgress | src/database/dbWeb.ts:173-175 | every progress row, each once, sorted by key |
| DbWeb.UnlockReward | src/database/dbWeb.ts:177-194 | an existing key is relabelled and unlocked in place, keeping its id; a new key is appended with id `length + 1`; the other rows and tables are unchanged, and unique keys stay unique |
| DbWeb.GetRewards | src/database/dbWeb.ts:196-198 | exactly the unlocked rewards, in table order and with their multiplicity |
| DbWeb.UnlockThenListed | src/database/dbWeb.ts:177-198 | a reward just unlocked is listed afterwards |
| DbWeb.GetSetting | src/database/dbWeb.ts:200-203 | the value of the first row with the key; absent when there is no row or it holds `null` |
| DbWeb.SetSetting | src/database/dbWeb.ts:205-207 | writing a setting touches only the settings table |
| DbWeb.SetThenGet | src/database/dbWeb.ts:200-207 | a setting reads back as the value just written |
| DbWeb.SetLeavesOthers | src/database/dbWeb.ts:94-106 | writing one key leaves every other key's value as it was |
| DbWeb.SettingIndexAfterUpdate | src/database/dbWeb.ts:102 | overwriting the found settings row keeps it the first with its key |
| DbWeb.SettingIndexAppend | src/database/dbWeb.ts:103 | a key appended to a table without it is found at the end |
| DbWeb.SettingIndexOtherKey | src/database/dbWeb.ts:102 | overwriting one key's row does not move or change any other key's first row |
| DbWeb.SettingIndexAppendOther | src/database/dbWeb.ts:103 | appending one key's row does not move any other key's first row |
| DbWeb.SetSettingShape | src/database/dbWeb.ts:96-103 | the upsert keeps keys unique; it keeps an existing key's id and the row count; otherwise it adds one row with id `length + 1` |
| DbNative.ExecuteSQL | src/database/db.ts:22-38 | statements starting with `SELECT` (after trimming, in any case) return the engine's rows; all others return nothing |
| DbNative.FirstRow | src/database/db.ts:43 | `result.length > 0 ? result[0] : null` |
| DbNative.QueryByPrefix | src/database/db.ts:24-27 | for a statement whose six-letter verb has no blank at either end, being a query is exactly the verb spelling `SELECT` in any case |
| DbNative.IsQuery | src/database/db.ts:24-27 | a statement goes to the query path exactly when its first six characters after trimming spell `SELECT` in any case |
| DbNative.SelectIsQuery | src/database/db.ts:24-27 | every statement starting with `SELECT` takes the query path |
| DbNative.InsertIsNotQuery | src/database/db.ts:24-27 | no statement starting with `INSERT` does |
| DbNative.UserQueryIsQuery | src/database/db.ts:42 | the user lookup is sent as a query |
| DbNative.ProgressQueryIsQuery | src/database/db.ts:57 | the progress lookup is sent as a query |
| DbNative.SettingQueryIsQuery | src/database/db.ts:105 | the setting lookup is sent as a query |
| DbNative.WritersAreNotQueries | src/database/db.ts:49-112 | the user insert and the settings upsert are sent to `runSync` |
| DbNative.StatementsDispatch | src/database/db.ts:22-115 | the three lookups are queries and the two writers are not |
| DbNative.GetUser | src/database/db.ts:41-44 | the first returned row, present exactly when there is one |
| DbNative.GetGameProgress | src/database/db.ts:55-61 | the first returned row, present exactly when there is one |
| DbNative.GetSetting | src/database/db.ts:104-107 | the first row's value, present exactly when a row exists and its value is not `null` |
| DbNative.GetSettingAgrees | src/database/db.ts:104-107 | given the rows the browser store's filter returns, the native backend reads the same setting as the browser backend |
| DbNative.ValuesOf | src/database/db.ts:105 | the `value` column of each returned row, in order |
| DbNative.GetUserAgrees | src/database/db.ts:41-44 | both backends return the same user: the first row of the user table, or nothing when it is empty |
| DbNative.GetGameProgressAgrees | src/database/db.ts:55-61 | given the rows the browser store's filter returns, both backends read the same progress row |
| DbNative.CreateUserParams | src/database/db.ts:47-52 | the parameters are the name, the age (`null` for `NaN`) and the avatar or this backend's default |
| DbNative.AvatarOrDefault | src/database/db.ts:50 | `avatar || '👦'`: a given non-empty avatar is kept; a missing or empty one becomes the boy emoji |
| DbNative.BackendDefaultsDiffer | src/database/dbWeb.ts:135-144 | a user created without an avatar gets a different avatar in the browser backend than in the SQLite one |
| DbNative.FixedDefaultsAgree | src/database/db.ts:47-52 | with the corrected default the two backends keep the same avatar for every input |
| DbNative.OccurrencesAppend | src/database/db.ts:74-80 | placeholder counts add up over concatenation |
| DbNative.OccurrencesAbsent | src/database/db.ts:74-80 | text without a `?` has none |
| DbNative.Assignments | src/database/db.ts:74-75 | one `key = ?` per supplied field, in order |
| DbNative.ParamsOf | src/database/db.ts:77 | one value per supplied field, in the same order |
| DbNative.UpdateStatement | src/database/db.ts:74-81 | the statement is `SET`, the joined assignments, `, last_played = ...`, `WHERE game_key = ?`; the parameters are the values and then the key |
| DbNative.OccurrencesJoin | src/database/db.ts:76 | joining with a separator without `?` keeps the total count of `?` |
| DbNative.AssignmentPlaceholders | src/database/db.ts:74-76 | the assignments contribute one `?` per field |
| DbNative.SetPrefixPlaceholders | src/database/db.ts:80 | the `UPDATE ... SET` prefix has no `?` |
| DbNative.SeparatorPlaceholders | src/database/db.ts:76 | the separator has no `?` |
| DbNative.LastPlayedPlaceholders | src/database/db.ts:80 | the play-date assignment has no `?` |
| DbNative.WhereKeyPlaceholders | src/database/db.ts:80 | the `WHERE` clause has one `?` |
| DbNative.PlaceholdersMatchParams | src/database/db.ts:74-81 | the statement has exactly as many `?` as there are parameters |
| DbNative.JoinSnoc | src/database/db.ts:76 | `join` over one more part appends the separator and the part |
| DbNative.UpdateStatementWellFormed | src/database/db.ts:74-80 | for a non-empty patch the statement is well formed |
| DbNative.EmptyPatchMalformed | src/database/db.ts:74-80 | for an empty patch the statement reads `SET , last_played = ...`, which is not the well-formed statement |
| DbNative.UpdateStatementFixed | src/database/db.ts:74-81 | the corrected statement is always well formed, and it is the original whenever some field is supplied |
| DbNative.UpdateStatementWellFormedFixed | src/database/db.ts:74-80 | the well-formed statement leaves out the comma when there are no assignments |
| ProgressStore.Full | src/store/progressStore.ts:53 | a loaded row keeps its key and id |
| ProgressStore.Overlay | src/store/progressStore.ts:43 | `{ ...base, ...data }`: each field supplied by `data` wins, and the others come from `base` |
| ProgressStore.OverlayLaws | src/store/progressStore.ts:43 | the empty patch is a unit on both sides, and overlaying is associative |
| ProgressStore.SetProgress | src/store/progressStore.ts:35-38 | the key is added or replaced by `data`; the other keys and the rewards are unchanged |
| ProgressStore.UpdateProgress | src/store/progressStore.ts:39-45 | the key's entry is overlaid with `data` (it is `data` itself when the key was missing); the other keys and the rewards are unchanged |
| ProgressStore.UpdateTwice | src/store/progressStore.ts:39-45 | two updates of a key equal one update with the combined patch |
| ProgressStore.AddReward | src/store/progressStore.ts:46-49 | the reward is appended after the existing ones |
| ProgressStore.LastIndex | src/store/progressStore.ts:52-54 | the last row with the key, or none |
| ProgressStore.Load | src/store/progressStore.ts:51-54 | the map has exactly the loaded keys, each holding the last row with that key |
| ProgressStore.LoadKeys | src/store/progressStore.ts:51-54 | the keys of the loaded map are exactly the keys of the rows |
| ProgressStore.LoadLastWins | src/store/progressStore.ts:51-54 | a row with no later row of its key is the entry stored under that key |
| ProgressStore.LoadProgress | src/store/progressStore.ts:50-56 | the map holds exactly the loaded keys, each with the last row that has it; the rewards are unchanged |
| ProgressStore.LoadForgetsPrevious | src/store/progressStore.ts:55 | loading replaces the whole map: the previous state leaves no trace |
| ProgressStore.LoadRewards | src/store/progressStore.ts:57 | the rewards list becomes exactly the loaded list |
| CodeBlocks.Step | src/games/codeBlocks/index.tsx:96-101 | a `MOVE` goes one cell right, down, left or up for directions 0 to 3 |
| CodeBlocks.StepIsUnitMove | src/games/codeBlocks/index.tsx:96-101 | every move changes exactly one coordinate by exactly one |
| CodeBlocks.Exec | src/games/codeBlocks/index.tsx:90-122 | a finished run stays on the grid at every step and ends in a valid direction; a failed run names the first cell off the grid; an empty program leaves the robot where it is |
| CodeBlocks.TurnKeepsPosition | src/games/codeBlocks/index.tsx:118-121 | `TURN` rotates clockwise without moving the robot |
| CodeBlocks.FinishedAtLastStep | src/games/codeBlocks/index.tsx:93-127 | the position checked against the star is the last cell the robot moved to, or the start when it never moved |
| CodeBlocks.ResetLevel | src/games/codeBlocks/index.tsx:70-77 | the robot is back at the level's start facing right with an empty program; level and score are kept |
| CodeBlocks.AddBlock | src/games/codeBlocks/index.tsx:79-81 | the block is appended to the program, and nothing else changes |
| CodeBlocks.RemoveLastBlock | src/games/codeBlocks/index.tsx:83-85 | `slice(0, -1)` drops exactly the last block; an empty program stays empty |
| CodeBlocks.RemoveUndoesAdd | src/games/codeBlocks/index.tsx:79-85 | removing the last block undoes adding it |
| CodeBlocks.RunProgram | src/games/codeBlocks/index.tsx:87-157 | a level is saved (next level, score + 50, three stars) exactly when the program finishes on the star; otherwise the score is kept; either way the robot is reset |
| CodeBlocks.RunIgnoresDisplayedRobot | src/games/codeBlocks/index.tsx:89-91 | the run starts from the level's start, whatever robot position is displayed |
| CodeBlocks.NextLevel | src/games/codeBlocks/index.tsx:146 | `Next Level` moves to the following level and keeps the score |
| CodeBlocks.LevelsSolvable | src/games/codeBlocks/index.tsx:24-41 | both levels have a winning program: two moves; then two moves, a turn and two moves |
| CodeBlocks.LeavingGridFails | src/games/codeBlocks/index.tsx:104-114 | a third move on the first level leaves the grid, and nothing is saved |
| LogicTown.SelectBuilding | src/games/logicTown/index.tsx:61-66 | selecting a kind changes only the selection |
| LogicTown.ResetTown | src/games/logicTown/index.tsx:149-153 | no buildings, all five kinds available, nothing selected; level and score kept |
| LogicTown.PlaceBuilding | src/games/logicTown/index.tsx:68-147 | nothing changes without a selection, on an occupied cell, or without support; a placement adds a stable building, scores 10 and uses up one copy of the kind; the fifth completes the level, saving the level after and `score + 50` from the render's score with `min(3, level)` stars, and the reward timer resets the town |
| LogicTown.ResetIsValid | src/games/logicTown/index.tsx:149-153 | the reset town satisfies the town invariant |
| LogicTown.SupportedGrows | src/games/logicTown/index.tsx:82-86 | adding a building never takes support away |
| LogicTown.PlacedIsValid | src/games/logicTown/index.tsx:68-118 | a building placed on a free, held-up cell keeps the cells distinct and every building held up |
| LogicTown.PlacePreservesValid | src/games/logicTown/index.tsx:68-125 | placing on the grid keeps the invariant: cells on the grid and distinct, every building stable and supported, the selection available, and placed plus available equal to five |
| LogicTown.SelectPreservesValid | src/games/logicTown/index.tsx:61-66 | selecting an available kind keeps the invariant |
| LogicTown.CompletesOnFifth | src/games/logicTown/index.tsx:121-124 | a placement completes the level exactly when it is the fifth building |
| LogicTown.GroundFirst | src/games/logicTown/index.tsx:81-97 | in an empty town, a top-row cell is unstable and a bottom-row cell is accepted |
| NumberHop.MaxNum | src/games/numberHop/index.tsx:17-18 | `min(level + 1, scaleMax(7, tier))` is at most both bounds and equal to one of them |
| NumberHop.MaxNumBounds | src/games/numberHop/index.tsx:17-18 | from level 1 there are at least two pads, and at most 5, 7 or 8 on easy, normal or hard |
| NumberHop.Range | src/games/numberHop/index.tsx:67 | `Array.from({ length: n }, (_, i) => i + 1)` is `1..n` in order |
| NumberHop.RangeDistinct | src/games/numberHop/index.tsx:67 | the pad numbers are distinct |
| NumberHop.Pads | src/games/numberHop/index.tsx:26-69 | the pads are a shuffle of `1..maxNum` |
| NumberHop.PadsArePermutation | src/games/numberHop/index.tsx:66-69 | the pads show every number from 1 to `maxNum` exactly once |
| NumberHop.OnTapNumber | src/games/numberHop/index.tsx:80-106 | a wrong number changes nothing; the right one scores 10 and advances; tapping `maxNum` saves the next level with the new score and `min(3, level)` stars, and the reward timer starts that level at 1 |
| NumberHop.TapKeepsValid | src/games/numberHop/index.tsx:80-106 | the next number to tap stays within `1..maxNum` whatever is tapped |
| NumberHop.InOrderFinishes | src/games/numberHop/index.tsx:80-101 | tapping the remaining numbers in order always completes the level, scoring 10 per tap |
| ColorMatch.BaseNeeded | src/games/colorMatchParade/index.tsx:37 | 3, 4 and 5 hits for levels up to 1, level 2 and later levels |
| ColorMatch.Needed | src/games/colorMatchParade/index.tsx:38 | the tier-scaled count is at least 2, and normal uses the base |
| ColorMatch.OtherColor | src/games/colorMatchParade/index.tsx:84-90 | a drawn odd-position colour is one of the six and never the target |
| ColorMatch.Row | src/games/colorMatchParade/index.tsx:85-94 | a parade of eight: the target colour exactly at even positions, a valid colour everywhere, the animal `k mod 5` of its colour's list at position `k` |
| ColorMatch.CountAlternating | src/games/colorMatchParade/index.tsx:86-93 | an alternating row holds the colour in half its positions (rounded by parity) |
| ColorMatch.StartParade | src/games/colorMatchParade/index.tsx:80-98 | eight animals, the target colour exactly at even positions; hits back to 0; level and score kept |
| ColorMatch.FourTargets | src/games/colorMatchParade/index.tsx:86-93 | every parade shows exactly four animals of the target colour |
| ColorMatch.Tap | src/games/colorMatchParade/index.tsx:100-132 | a wrong colour changes nothing; the target scores 10 and counts a hit; reaching the tier's count saves the next level with the new score and `min(3, level)` stars, and the reward timer clears the hits; otherwise a refresh follows |
| ColorMatch.RoundStaysAtZero | src/games/colorMatchParade/index.tsx:107-124 | as written, the refresh that follows a correct tap calls `startParade`, which clears the hits: from zero hits a tap followed by its refresh ends at zero and saves nothing |
| ColorMatch.RoundsNeverLevelUp | src/games/colorMatchParade/index.tsx:96-124 | as written, when every tap is followed by its refresh before the next tap, no sequence of taps ever completes a level |
| ColorMatch.QuickTapsLevelUp | src/games/colorMatchParade/index.tsx:104-124 | two taps on the target inside the 800 ms before the refresh both count: on easy at level 1 the second one wins the level |
| ColorMatch.NextParade | src/games/colorMatchParade/index.tsx:80-98 | the corrected refresh draws a new target and row and keeps the hits, level and score |
| ColorMatch.RoundFixed | src/games/colorMatchParade/index.tsx:100-124 | with the corrected refresh a correct tap that does not finish the level keeps its hit; a level is saved exactly when the target is tapped at the last needed hit |
| ColorMatch.FixedLevelsUp | src/games/colorMatchParade/index.tsx:100-124 | with the corrected refresh, tapping the target in enough rounds completes the level |
| LetterPop.Letter | src/games/letterPopBalloons/index.tsx:17 | each of the 26 positions holds a capital letter |
| LetterPop.LettersFrom | src/games/letterPopBalloons/index.tsx:17 | the letters from position `i` on, in alphabetical order |
| LetterPop.LettersDistinct | src/games/letterPopBalloons/index.tsx:17 | `LETTERS` is the 26 distinct capitals |
| LetterPop.BaseNeeded | src/games/letterPopBalloons/index.tsx:19 | 2, 3 and 4 pops for levels up to 1, level 2 and later levels |
| LetterPop.Needed | src/games/letterPopBalloons/index.tsx:20 | the tier-scaled count is at least 1, and normal uses the base |
| LetterPop.BalloonCount | src/games/letterPopBalloons/index.tsx:72 | `scaleChoices(6, 26, tier)` is 5, 6 or 7 balloons |
| LetterPop.RowFor | src/games/letterPopBalloons/index.tsx:69-73 | the target first, then `n - 1` distinct other capitals |
| LetterPop.NewRound | src/games/letterPopBalloons/index.tsx:63-80 | a round shows the tier's number of distinct capital balloons, the target first and nowhere else |
| LetterPop.OneTargetBalloon | src/games/letterPopBalloons/index.tsx:73-144 | exactly one balloon, the first, carries the target letter |
| LetterPop.OnPop | src/games/letterPopBalloons/index.tsx:82-113 | a wrong letter (or no round) changes nothing; the target scores 15, keeps the row on screen and schedules a refresh; reaching the tier's count saves the next level with `min(3, level)` stars and restarts the count, otherwise the count goes up |
| LetterPop.Refresh | src/games/letterPopBalloons/index.tsx:103-106 | the scheduled `newRound()` replaces the row and keeps level, score and count |
| LetterPop.PopThenRefresh | src/games/letterPopBalloons/index.tsx:82-113 | a correct pop followed by its refresh scores 15, shows the next row and counts one pop or saves the level |
| LetterPop.QuickPopsCountTwice | src/games/letterPopBalloons/index.tsx:82-106 | the balloons stay tappable until the refresh, and a second pop of the same target scores and counts again |
| LetterPop.QuickPopsWinLevel | src/games/letterPopBalloons/index.tsx:82-101 | on normal at level 1 two quick pops of the first row's target win the level |
| LetterPop.PopKeepsValid | src/games/letterPopBalloons/index.tsx:89-101 | the pop count stays below the level's requirement |
| LetterPop.NeededPopsWin | src/games/letterPopBalloons/index.tsx:82-101 | popping the target in enough rounds completes the level |
| AnimalSound.AnimalsDistinct | src/games/animalSoundMatch/index.tsx:16-25 | eight distinct animals |
| AnimalSound.BaseNeeded | src/games/animalSoundMatch/index.tsx:30 | 2, 3 and 4 answers for levels up to 2, 3-4 and from 5 on |
| AnimalSound.Needed | src/games/animalSoundMatch/index.tsx:31 | the tier-scaled count is at least 1, and normal uses the base |
| AnimalSound.ChoiceCount | src/games/animalSoundMatch/index.tsx:86 | `scaleChoices(3, 8, tier)` is 2, 3 or 4 choices |
| AnimalSound.ChoicesFor | src/games/animalSoundMatch/index.tsx:85-87 | the target first, then distinct other animals |
| AnimalSound.NewRound | src/games/animalSoundMatch/index.tsx:80-89 | a round has a target, the tier's number of distinct choices with the target first, and unlocked buttons |
| AnimalSound.OnTap | src/games/animalSoundMatch/index.tsx:91-160 | without a target, while locked, or on a wrong animal nothing changes; the right one locks the buttons, scores 20 and counts; reaching the count saves the next level with `min(3, level)` stars and schedules the level-up, otherwise a new round |
| AnimalSound.Fire | src/games/animalSoundMatch/index.tsx:111-119 | the pending timer fires: a new round, after a level-up at the next level with the count reset |
| AnimalSound.CountedOnce | src/games/animalSoundMatch/index.tsx:92-94 | once locked, a second tap before the timer changes nothing, so an answer is counted once |
| AnimalSound.TapKeepsValid | src/games/animalSoundMatch/index.tsx:91-126 | the buttons are locked exactly while a timer is pending, and a level-up is pending exactly when the count is reached |
| AnimalSound.FireKeepsValid | src/games/animalSoundMatch/index.tsx:111-119 | firing the timer keeps that invariant |
| AnimalSound.Answer | src/games/animalSoundMatch/index.tsx:91-119 | one right answer short of the quota opens the next question at the same level with one more counted; reaching the quota saves the level |
| AnimalSound.NeededAnswersWin | src/games/animalSoundMatch/index.tsx:91-119 | answering enough rounds correctly completes the level |
| FruitFinder.GenerateNewFruit | src/games/fruitFinder/index.tsx:66-71 | a drawn fruit, an empty answer and the hint hidden; level, score and count kept |
| FruitFinder.PaddedAnswerMatches | src/games/fruitFinder/index.tsx:76-79 | surrounding white space and letter case never make a right answer wrong |
| FruitFinder.Matches | src/games/fruitFinder/index.tsx:76-79 | the trimmed answer matches exactly when it has the name's length and agrees with it letter by letter ignoring case |
| FruitFinder.MatchesPadded | src/games/fruitFinder/index.tsx:76-79 | a word padded with white space matches any name it equals up to case |
| FruitFinder.CheckAnswer | src/games/fruitFinder/index.tsx:73-116 | without a fruit nothing changes; a wrong answer only clears the field; a right one scores 20 and brings a new fruit; the fifth right answer saves the next level with the new score and three stars and restarts the count, otherwise the count goes up |
| FruitFinder.CheckKeepsValid | src/games/fruitFinder/index.tsx:84-101 | the count stays below 5 and the fruit stays in the list |
| FruitFinder.SkipKeepsProgress | src/games/fruitFinder/index.tsx:175-177 | skipping keeps the count and the invariant |
| FruitFinder.NameMatchesItself | src/games/fruitFinder/index.tsx:23-79 | typing a fruit's own name is accepted |
| FruitFinder.NamesAreWords | src/games/fruitFinder/index.tsx:23-36 | every name starts and ends with a lower-case letter |
| FruitFinder.FiveRightWin | src/games/fruitFinder/index.tsx:87-101 | answering right often enough completes the level, as the guide's "5 fruits" promises |
| ChefFractions.DenominatorFor | src/games/chefFractions/index.tsx:50-51 | the denominator for level `n` is the `n`-th of 2, 3, 4, 6, 8, and 8 from level 5 on |
| ChefFractions.NewChallenge | src/games/chefFractions/index.tsx:48-58 | one of the five foods, as many slices as the denominator, and a numerator in `[1, denominator)` |
| ChefFractions.EveryNumeratorDrawn | src/games/chefFractions/index.tsx:52 | every numerator from 1 to `denominator - 1` can be drawn |
| ChefFractions.GenerateChallenge | src/games/chefFractions/index.tsx:48-60 | a new challenge for the level and an empty selection; level, score and count kept |
| ChefFractions.ToggleSlice | src/games/chefFractions/index.tsx:62-68 | the tapped slice's selection flips, and no other slice's does |
| ChefFractions.ToggleTwice | src/games/chefFractions/index.tsx:62-68 | tapping an unselected slice twice restores the selection |
| ChefFractions.WithoutAppend | src/games/chefFractions/index.tsx:64-66 | filtering out a slice just appended gives back the previous selection |
| ChefFractions.CheckAnswer | src/games/chefFractions/index.tsx:70-111 | correct exactly when as many slices are selected as the numerator: it scores 20 and counts; every fifth saves the next level with `min(3, completed / 5)` stars; a wrong answer changes nothing |
| ChefFractions.Serve | src/games/chefFractions/index.tsx:98-102 | after a correct answer `Next Challenge` draws a challenge for the level the alert's closure saw, with an empty selection |
| ChefFractions.ToggleKeepsValid | src/games/chefFractions/index.tsx:62-68 | tapping a displayed slice keeps the selection repeat-free and within the slices |
| ChefFractions.ServeKeepsValid | src/games/chefFractions/index.tsx:70-111 | checking and serving keep that invariant |
| ChefFractions.CorrectIffSetSize | src/games/chefFractions/index.tsx:76 | the length test is a count of distinct selected slices |
| ArtDetective.Repeat | src/games/artDetective/index.tsx:49-51 | `targetCount` copies of the target |
| ArtDetective.OtherShape | src/games/artDetective/index.tsx:56-59 | the rejection loop's result is a shape other than the target |
| ArtDetective.OtherCells | src/games/artDetective/index.tsx:55-61 | the filler cells are shapes, none of them the target |
| ArtDetective.Unshuffled | src/games/artDetective/index.tsx:44-61 | `16 + 4 level` cells, exactly `3 + level` of them the target |
| ArtDetective.BoardFor | src/games/artDetective/index.tsx:63-67 | the shuffled board is a permutation of the unshuffled one |
| ArtDetective.GenerateLevel | src/games/artDetective/index.tsx:43-72 | the board has `16 + 4 level` cells, exactly `3 + level` of them the target, none found yet |
| ArtDetective.NextLevel | src/games/artDetective/index.tsx:96-100 | after the reward delay the level goes up with the found count reset, on a board drawn for the old level |
| ArtDetective.Press | src/games/artDetective/index.tsx:74-106 | a non-target changes nothing; a target is marked found and scores 10; the level completes exactly when the new found count equals the targets still on the board before the tap |
| ArtDetective.PressRemovesOne | src/games/artDetective/index.tsx:77-78 | marking a target found leaves one fewer on the board |
| ArtDetective.CompletesHalfWay | src/games/artDetective/index.tsx:81-87 | as written, completion fires only when `2 * found + 1` equals the board's total, half-way through an odd total |
| ArtDetective.PressKeepsBalance | src/games/artDetective/index.tsx:74-85 | a tap that does not complete the level keeps found plus remaining equal to the total |
| ArtDetective.PressOnEvenBoard | src/games/artDetective/index.tsx:81-87 | with an even total no tap completes the level |
| ArtDetective.EvenBoardNeverCompletes | src/games/artDetective/index.tsx:74-106 | as written, on an even total no sequence of taps completes the level |
| ArtDetective.OpeningBoardNeverCompletes | src/games/artDetective/index.tsx:25-106 | as written, the opening board (four targets at level 1) can never be completed |
| ArtDetective.PressFixed | src/games/artDetective/index.tsx:74-106 | with the count taken after the tap, the level completes exactly when the last target is found |
| ArtDetective.FirstIndex | src/games/artDetective/index.tsx:74 | a position holding the cell |
| ArtDetective.FixedFindsAll | src/games/artDetective/index.tsx:74-106 | with the correction, finding the targets one by one completes the level on the last one, after exactly as many taps as targets |
| ScienceLab.TablesConsistent | src/games/scienceLab/index.tsx:22-68 | every recipe ingredient is on the shelf; recipes, shelf and experiment names have no repeats |
| ScienceLab.Needed | src/games/scienceLab/index.tsx:119 | three experiments on easy, all four otherwise |
| ScienceLab.SelectExperiment | src/games/scienceLab/index.tsx:87-91 | the experiment is opened with an empty selection; everything else kept |
| ScienceLab.ToggleIngredient | src/games/scienceLab/index.tsx:93-99 | the tapped ingredient's selection flips, and no other ingredient's does |
| ScienceLab.ToggleKeepsDistinct | src/games/scienceLab/index.tsx:93-99 | toggling keeps the selection repeat-free |
| ScienceLab.ToggleTwiceSameMembers | src/games/scienceLab/index.tsx:93-99 | tapping an ingredient twice restores the selected set |
| ScienceLab.CorrectIffSameSet | src/games/scienceLab/index.tsx:104-107 | for repeat-free lists the length-and-`every` test is set equality with the recipe |
| ScienceLab.Correct | src/games/scienceLab/index.tsx:104-107 | a passing selection uses only recipe ingredients and has the recipe's length; the recipe itself passes |
| ScienceLab.RunExperiment | src/games/scienceLab/index.tsx:101-146 | a wrong mix (or none open) changes nothing; a right one scores 30, records the experiment once and closes it; a newly recorded experiment that reaches the tier's count saves the next level with three stars and schedules the level-up |
| ScienceLab.FinishLevel | src/games/scienceLab/index.tsx:129-133 | the reward timer raises the level and clears the record |
| ScienceLab.NamesBound | src/games/scienceLab/index.tsx:115-117 | the record never holds more experiments than exist |
| ScienceLab.RunKeepsValid | src/games/scienceLab/index.tsx:101-146 | running keeps the record repeat-free and within the names, with a level-up pending exactly when the count is reached |
| ScienceLab.FinishKeepsValid | src/games/scienceLab/index.tsx:129-133 | the level-up keeps that invariant |
| ScienceLab.EasyLevelSavedTwice | src/games/scienceLab/index.tsx:115-127 | on easy, a fourth new experiment run before the reward timer saves the level a second time |
| ScienceLab.SelectToggleKeepValid | src/games/scienceLab/index.tsx:87-99 | opening an experiment and toggling keep the invariant |
| ScienceLab.ToggleAll | src/games/scienceLab/index.tsx:93-99 | a run of taps changes only the selection |
| ScienceLab.ToggleAllAppends | src/games/scienceLab/index.tsx:97 | tapping new distinct ingredients appends them in order |
| ScienceLab.SolveIsCorrect | src/games/scienceLab/index.tsx:87-107 | opening an experiment and tapping its recipe gives a correct mix |
| ScienceLab.NewExperimentsWin | src/games/scienceLab/index.tsx:101-127 | solving enough new experiments completes the level |
| EcoGuardians.IndicesAreMissions | src/games/ecoGuardians/index.tsx:24-53 | the four missions are listed once each |
| EcoGuardians.Displayed | src/games/ecoGuardians/index.tsx:140-145 | the displayed target is 5 trees, 3 animals, otherwise 10 |
| EcoGuardians.Required | src/games/ecoGuardians/index.tsx:89-91 | the taps required: `max(2, base - 2)` on easy, the base on normal, `base + 2` on hard; always positive |
| EcoGuardians.DisplayedTargetDiffers | src/games/ecoGuardians/index.tsx:89-145 | only normal asks for the displayed count; hard asks for two more (not `scaleMax`'s one), easy for fewer |
| EcoGuardians.StartMission | src/games/ecoGuardians/index.tsx:80-167 | a card starts its mission from progress 0 unless it is completed or a mission is open |
| EcoGuardians.CompleteMission | src/games/ecoGuardians/index.tsx:100-129 | the mission's points are added every time; a mission is recorded once; recording the last of the four saves the next level with three stars and schedules the level-up |
| EcoGuardians.DoAction | src/games/ecoGuardians/index.tsx:85-98 | a tap advances the progress; reaching the required count completes the mission |
| EcoGuardians.CloseMission | src/games/ecoGuardians/index.tsx:128 | the close timer and the back button close the mission and change nothing else |
| EcoGuardians.FinishLevel | src/games/ecoGuardians/index.tsx:120-124 | the reward timer raises the level and clears the record |
| EcoGuardians.RecordBound | src/games/ecoGuardians/index.tsx:107-111 | a repeat-free record holds at most four missions, and all four when it is full |
| EcoGuardians.StepsKeepValid | src/games/ecoGuardians/index.tsx:80-129 | every handler keeps the record repeat-free and in range, with a level-up pending exactly when all four are recorded |
| EcoGuardians.CompletedCannotRestart | src/games/ecoGuardians/index.tsx:167 | a completed card does nothing |
| EcoGuardians.ActionsBelow | src/games/ecoGuardians/index.tsx:92-97 | taps below the requirement only count |
| EcoGuardians.MissionTakesRequired | src/games/ecoGuardians/index.tsx:80-129 | a new mission is completed by exactly the required number of taps, earning its points and recording it |
| EcoGuardians.TapAfterCompletionScoresAgain | src/games/ecoGuardians/index.tsx:95-128 | as written, a tap in the 1.5 s before the close scores the mission's points again without recording it again |
| WorldExplorer.TableConsistent | src/games/worldExplorer/index.tsx:29-90 | every quiz's answer is among its options, and the country codes are distinct |
| WorldExplorer.VisitCountry | src/games/worldExplorer/index.tsx:117-121 | opening a country shows its card, not its quiz, and changes nothing else |
| WorldExplorer.StartQuiz | src/games/worldExplorer/index.tsx:123-125 | only the quiz is shown |
| WorldExplorer.HandleQuizAnswer | src/games/worldExplorer/index.tsx:127-165 | every answer closes the country; a right one scores 20 and stamps the country once; stamping the last country saves the next level with three stars and schedules the level-up; a wrong one changes nothing else |
| WorldExplorer.FinishLevel | src/games/worldExplorer/index.tsx:148-152 | the reward timer raises the level and clears the stamps |
| WorldExplorer.StepsKeepValid | src/games/worldExplorer/index.tsx:117-165 | every handler keeps the stamps repeat-free and among the codes, with a level-up pending exactly when all are stamped |
| WorldExplorer.NewStampsWin | src/games/worldExplorer/index.tsx:127-152 | answering the quizzes of all unstamped countries completes the level |
| StoryBuilder.ShuffleWords | src/games/storyBuilder/index.tsx:64-71 | each category is a permutation of its word list |
| StoryBuilder.WordListsDistinct | src/games/storyBuilder/index.tsx:23-28 | each word list has no repeats |
| StoryBuilder.ShowsEachOnce | src/games/storyBuilder/index.tsx:64-71 | a permutation of a repeat-free list shows each word exactly once |
| StoryBuilder.ShuffleShowsEveryWord | src/games/storyBuilder/index.tsx:64-71 | after a shuffle every category shows each of its five words once |
| StoryBuilder.SelectWord | src/games/storyBuilder/index.tsx:164-200 | a word button sets its own category and no other |
| StoryBuilder.ResetStory | src/games/storyBuilder/index.tsx:116-122 | all four choices cleared and the words reshuffled; level, score and count kept |
| StoryBuilder.CreateStory | src/games/storyBuilder/index.tsx:73-114 | an incomplete story changes nothing; a complete one scores 50 and counts; every third saves the next level, as written with the score and count of the render that made the tap, and the story is reset |
| StoryBuilder.FirstLevelUpSavesNoStars | src/games/storyBuilder/index.tsx:97-106 | as written, the third story saves no stars and misses its own 50 points |
| StoryBuilder.SavedLagsShown | src/games/storyBuilder/index.tsx:97-106 | as written, every saved level-up lags one step behind in stars and 50 behind the shown score |
| StoryBuilder.ThirdsStep | src/games/storyBuilder/index.tsx:86 | the count passes a multiple of three exactly when the number of thirds goes up by one |
| StoryBuilder.CreateStoryFixed | src/games/storyBuilder/index.tsx:97-106 | the corrected save carries the shown score and level and 1 to 3 stars, namely `min(3, floor(stories / 3))` of the new story count, and behaves as written otherwise |
| StoryBuilder.TellStep | src/games/storyBuilder/index.tsx:73-114 | one complete story scores 50, counts once, and raises the level exactly when the count reaches a multiple of three |
| StoryBuilder.StoriesRaiseLevel | src/games/storyBuilder/index.tsx:73-114 | `n` complete stories score `50 n`, and the level goes up once per multiple of three passed |
| MathMonsters.NextQuestion | src/games/mathMonsters/index.tsx:20-73 | a question offers four options including its answer, or the generator does not finish |
| MathMonsters.LevelTwoCanHang | src/games/mathMonsters/index.tsx:73-116 | from level 2 the game can draw a question whose option loop never ends |
| MathMonsters.HandleAnswer | src/games/mathMonsters/index.tsx:55-74 | a right answer deals `20 + 5 streak`, scores `10 + 2 streak` and extends the streak; a wrong one costs 15 health and ends the streak; health never drops below 0; every answer counts and brings the next question |
| MathMonsters.ResetLevel | src/games/mathMonsters/index.tsx:110-117 | both healths back to 100, streak and count to 0; level and score kept |
| MathMonsters.Settle | src/games/mathMonsters/index.tsx:37-108 | a defeated monster saves the next level with the current score and `calculateStars(score, 10 * questions)` stars, then the level goes up and resets; a defeated player gets the reset; otherwise nothing happens |
| MathMonsters.AnswerKeepsValid | src/games/mathMonsters/index.tsx:55-117 | healths stay within `[0, 100]`, streak and count non-negative |
| MathMonsters.Damage | src/games/mathMonsters/index.tsx:61 | a run of `k` right answers deals at least `20 k` |
| MathMonsters.Points | src/games/mathMonsters/index.tsx:63 | a run of `k` right answers scores at least `10 k` |
| MathMonsters.MaxChain | src/games/mathMonsters/index.tsx:62-68 | two clamped subtractions are one clamped subtraction of the sum |
| MathMonsters.RightAnswersAddUp | src/games/mathMonsters/index.tsx:55-74 | a run of right answers removes its total damage (down to 0) and adds its total points; the player is untouched |
| MathMonsters.FourRightAnswersWin | src/games/mathMonsters/index.tsx:61-64 | from a fresh level four right answers win (20 + 25 + 30 + 35) and three leave 25 health |
| MathMonsters.WrongAnswersAddUp | src/games/mathMonsters/index.tsx:65-70 | `k` wrong answers cost `15 k` health (down to 0) and leave the monster and score alone |
| MathMonsters.SevenWrongAnswersLose | src/games/mathMonsters/index.tsx:68 | from full health seven wrong answers lose the game and six leave 10 |
| ParentDashboard.Keys | src/screens/ParentDashboard.tsx:44 | the `game_key` of each row, in order |
| ParentDashboard.KeysAppend | src/screens/ParentDashboard.tsx:46 | pushing a row appends its key |
| ParentDashboard.Unique | src/screens/ParentDashboard.tsx:43-49 | the dedupe keeps at most as many rows as it is given |
| ParentDashboard.FirstIndexOfPrefix | src/screens/ParentDashboard.tsx:44 | a key already found in the prefix is found at the same place in the whole list |
| ParentDashboard.FirstIndexOfLast | src/screens/ParentDashboard.tsx:44-46 | a row whose key is new is the first row with that key |
| ParentDashboard.UniqueKeepsFirst | src/screens/ParentDashboard.tsx:42-49 | the dedupe keeps exactly the first row of each key, in input order: every kept row is its key's first row, no key repeats, and no key is lost |
| ParentDashboard.UniqueOfDistinctKeys | src/screens/ParentDashboard.tsx:43-49 | a list without repeated keys passes through unchanged |
| ParentDashboard.UniqueIdempotent | src/screens/ParentDashboard.tsx:43-49 | deduplicating twice is deduplicating once |
| ParentDashboard.Total | src/screens/ParentDashboard.tsx:53-54 | the sum of a column is non-negative when every cell is |
| ParentDashboard.TotalSplit | src/screens/ParentDashboard.tsx:53-54 | the sum over two lists is the sum of their sums |
| ParentDashboard.CompletedCount | src/screens/ParentDashboard.tsx:129 | `filter((g) => g.completed).length` is at most the row count; it equals it exactly when every row is completed, and it is 0 exactly when none is |
| ParentDashboard.GameKeysDistinct | src/database/dbWeb.ts:35-38 | the fifteen game keys are distinct |
| ParentDashboard.CompletedAtMostFifteen | src/screens/ParentDashboard.tsx:129 | over rows with known game keys the deduplicated list has at most fifteen rows, so `Games Completed` never exceeds its `/15` |
| ParentDashboard.DisplayName | src/screens/ParentDashboard.tsx:133 | the listed name when there is a non-empty one, else the key itself |
| ParentDashboard.EveryGameNamed | src/screens/ParentDashboard.tsx:140-156 | every seeded game key has a display name different from the key |
| ParentDashboard.JsRem | src/screens/ParentDashboard.tsx:61 | JavaScript's `%` takes the sign of the dividend and agrees with the mathematical remainder for non-negative dividends |
| ParentDashboard.JsRemOdd | src/screens/ParentDashboard.tsx:61 | negating the dividend negates the remainder |
| ParentDashboard.FormatPlaytime | src/screens/ParentDashboard.tsx:59-64 | the text ends in `m`, and under an hour it has no `h` part |
| ParentDashboard.HoursMinutes | src/screens/ParentDashboard.tsx:60-61 | whole hours and the remaining whole minutes (below 60) of a duration |
| ParentDashboard.FormatReadsBack | src/screens/ParentDashboard.tsx:59-64 | for every non-negative duration the text reads back as exactly its whole hours and remaining minutes |
| ParentDashboard.ReadHoursMinutes | src/screens/ParentDashboard.tsx:62 | `<h>h <m>m` reads back as `(h, m)` |
| ParentDashboard.ReadMinutes | src/screens/ParentDashboard.tsx:63 | `<m>m` reads back as `(0, m)` |
| ParentDashboard.EditScreenTime | src/screens/ParentDashboard.tsx:276-280 | typing sets the limit to `parseInt(text)` when that is a number, and `NaN` keeps the old limit |
| ParentDashboard.ShownLimitReadsBack | src/screens/ParentDashboard.tsx:276-280 | re-entering the displayed limit keeps it |
| ParentDashboard.SetScreenTime | src/screens/ParentDashboard.tsx:66-80 | saved exactly when the limit lies in `[15, 180]`, and then the setting reads back as the limit; a rejected limit changes nothing; no other setting or table changes |
| ParentDashboard.AdoptAgreesWithGames | src/screens/ParentDashboard.tsx:35-36 | the dashboard's reading of the stored difficulty is the games' `getDifficulty` |
| ParentDashboard.LoadDefaults | src/screens/ParentDashboard.tsx:31-37 | with no settings stored, sound is on and the difficulty is normal |
| ParentDashboard.AdoptDifficulty | src/screens/ParentDashboard.tsx:35-36 | a stored tier name is adopted as that tier; any other tier than normal comes only from its stored name |
| ParentDashboard.LoadSettings | src/screens/ParentDashboard.tsx:31-37 | sound is off exactly when the stored value is `'0'`; the tier is the games' reading of the stored difficulty |
| ParentDashboard.SetDifficulty | src/screens/ParentDashboard.tsx:82-91 | the games then read the chosen tier; the sound setting and the other tables are unchanged |
| ParentDashboard.SetDifficultyThenLoad | src/screens/ParentDashboard.tsx:31-91 | reopening the dashboard shows the chosen tier and the old sound switch |
| ParentDashboard.ToggleSound | src/screens/ParentDashboard.tsx:238-242 | the switch flips, and reopening the dashboard shows the flipped value with the tier unchanged; no other table changes |
| ParentDashboard.ToggleTwice | src/screens/ParentDashboard.tsx:238-242 | flipping the switch twice restores the displayed and the stored value |
| ParentDashboard.IndexStable | src/database/dbWeb.ts:162-169 | replacing a row by one with the same key moves no key's first row |
| ParentDashboard.ResetAllEffect | src/screens/ParentDashboard.tsx:102-112 | the reset loop changes only progress rows: exactly the first row of each listed key is reset to level 1 with zero counters; every other row and table, and every key's position, is kept |
| ParentDashboard.ResetAll | src/screens/ParentDashboard.tsx:104-112 | the reset loop keeps the other tables, the number of progress rows and every row's key, and each row either stays as it was or is reset |
| ParentDashboard.UpdateKeepsIndex | src/screens/ParentDashboard.tsx:105-111 | one reset write keeps every key and the first index of every key |
| ParentDashboard.ResetAllKeepsIndex | src/screens/ParentDashboard.tsx:104-112 | the reset loop keeps every key and the first index of every key |
| ParentDashboard.ResetAllRows | src/screens/ParentDashboard.tsx:104-112 | the reset loop writes exactly the first row of each listed key and keeps every other row |
| ParentDashboard.ResetIdempotent | src/screens/ParentDashboard.tsx:102-112 | resetting twice with the same clock equals resetting once |
| ParentDashboard.SeededKeysUnique | src/database/dbWeb.ts:72-82 | the seeded table has no repeated key |
| ParentDashboard.PermutedKeysDistinct | src/database/dbWeb.ts:117 | sorting keeps keys distinct |
| ParentDashboard.LoadShowsEveryRow | src/screens/ParentDashboard.tsx:39-51 | on a store without repeated keys, the dedupe shows every row |
| ParentDashboard.ResetRowsTotalZero | src/screens/ParentDashboard.tsx:53-129 | over reset rows the score and playtime totals and the completed count are 0 |
| ParentDashboard.ResetClearsDashboard | src/screens/ParentDashboard.tsx:93-119 | on a store without repeated keys, after the reset the reloaded dashboard shows every game reset, with score, playtime and completed count all 0 |
| ParentDashboard.ResetEveryRow | src/screens/ParentDashboard.tsx:104-112 | on a store without repeated keys, resetting the listed games resets every row |
| ParentDashboard.ShownAllReset | src/screens/ParentDashboard.tsx:114 | when every row is reset, the reloaded dashboard shows only reset games and zero totals |
| HomeScreen.LoadUser | src/screens/HomeScreen.tsx:38-45 | the saved user when one exists, otherwise the setup form |
| HomeScreen.HandleCreateUser | src/screens/HomeScreen.tsx:47-61 | a blank name is refused first; then an empty age, or a number below 3 or above 12; anything else creates the one user with the trimmed name and the parsed age (none for `NaN`) and leaves the other tables alone |
| HomeScreen.CreatedAgeInRangeOrMissing | src/screens/HomeScreen.tsx:52-55 | every created user's age is in 3..12 or missing |
| HomeScreen.TypedAgeAccepted | src/screens/HomeScreen.tsx:52-57 | each age 3..12 typed as digits is accepted and saved as typed |
| HomeScreen.TrailingJunkIgnored | src/screens/HomeScreen.tsx:52 | only leading digits count: `5x` is saved as 5 |
| HomeScreen.LettersAgeAccepted | src/screens/HomeScreen.tsx:52-96 | as written, a two-letter age passes the check and the user is created without an age |
| HomeScreen.HandleCreateUserFixed | src/screens/HomeScreen.tsx:47-61 | with a non-number age also refused, every created user has an age in 3..12 |
| HomeScreen.FixedDiffersOnlyOnNaN | src/screens/HomeScreen.tsx:52-55 | the corrected form differs from the written one exactly on non-empty ages that do not parse |

## Left out

- The sine samples of `createWavBuffer` (`Math.sin`, floating-point volume) are not modelled. `WavTone.CreateWavBuffer` takes the raw integer samples as a parameter and models only the header, the clamp and the byte layout.
- The SQLite engine behind `src/database/db.ts` is not modelled. `DbNative` covers the statements the module builds and how it reads the rows the engine returns. So `unlockReward`, `getAllProgress` and `getRewards` of that file, which only pass fixed SQL to the engine, have no separate member.
- `loadStore`/`saveStore` (JSON and `localStorage`) are not modelled: the browser store is a value. The `last_played` and `unlocked_at` timestamps are an opaque `now` parameter.
- Audio, speech, haptics, modals and navigation are not modelled, because they are I/O with no effect on the state the model keeps. Alerts are covered by the next line.
- `MathUtil.FormatTime` takes natural numbers of seconds only. `formatTime` accepts any number, and JavaScript's `%` truncates, so `formatTime(-1)` is `-1:-1`; negative and fractional inputs are not modelled. No file of the core calls it.
- `MathUtil.FormatNumber` takes natural numbers only. `formatNumber` accepts any number; negative, fractional and huge (1e21 and above) inputs to `toLocaleString` are not modelled. No file of the core calls it.
- Alert dialogs are modelled as the native `Alert.alert` shows them: a pressed button runs its callback. How alerts behave in a web build is not modelled.
- `src/games/musicRhythm/index.tsx` and the files outside the core (tone player, animations, scripts, the user store toggle) are not modelled. Their behaviour rests on timers, closures and floating point.
- Randomness is not modelled as a distribution. Every `Math.random()` is a draw parameter, and every random-comparator `sort` is the Fisher–Yates `MathUtil.Shuffle` on draws, so it covers every permutation.
- Rejection loops (pick until different) are modelled by the value they accept. Where a loop needs enough draws to finish, an `Enough` precondition asks for them. Probabilistic termination is not modelled.
- Timers: a `setTimeout` callback is applied at once when a reward modal or a result screen covers the game until it fires. The refreshes of the colour parade and of Letter Pop and Eco Guardians' mission-close timer are separate transitions, because the screen stays live until they fire. The reward timers of Science Lab, Eco Guardians and World Explorer are separate transitions too, because the reward modal's close button can hide the modal before its timer fires. Math Monsters' reward timer is applied within `MathMonsters.Settle`, in the same step as the save.
- Awaited calls before the reward modal are not modelled as windows. A level-up awaits `playWinMusic()` and then `updateGameProgress` before it shows the modal (for example `src/games/storyBuilder/index.tsx:97-108` and `src/games/colorMatchParade/index.tsx:109-113`). Taps during those awaits, which run against a counter already at the threshold, are not modelled: the model applies the level-up as one step.
- Whether the reward modal or Science Lab's result screen is showing is not part of the state. The model allows a game's taps at any point before its reward timer fires. In the app they are possible only once the child has closed the modal, and in Science Lab only after the 2-second result screen has closed as well.
- Emoji and display strings of the game tables are replaced by indices or short names, where only identity matters.
- `WavTone.I16LE` writes each sample little-endian. `new Int16Array(buffer, 44, ...)` (`src/utils/wavTone.ts:44`) writes in the platform's byte order, which is little-endian on the phones and browsers the app targets; a big-endian platform is not modelled.
- `localeCompare` is an abstract total preorder `le`, and the stability of the JavaScript sort is not modelled.
- `toUpperCase`/`toLowerCase` map ASCII letters only. There is no Unicode case folding or normalisation.
- `ChefFractions.GenerateChallenge` requires level ≥ 1: for level 0 the source indexes the denominator table at −1 and reads `undefined`. The game never stores a level below 1.
- `ArtDetective.GenerateLevel` requires level ≥ 0: for a negative level the source's loop counts would be negative. The game never stores one.
- `StoryBuilder.CreateStory` takes the words of the next `shuffleWords()` as a parameter, and `MathMonsters.HandleAnswer` takes the next question, instead of drawing them.
- `MathMonsters.Damage` and `MathMonsters.Points`: their contracts state lower bounds only (`20 k` and `10 k`). The exact sums are fixed by `RightAnswersAddUp` and `FourRightAnswersWin`.
- `MathMonsters.Settle` does not model the order in which React runs the health effect relative to the answer's state update: the effect is applied after every answer.
- `DbWeb.ExecuteSQL`: its contract does not describe the result of every `SELECT` branch one by one. Those are stated on `DbWeb.Classify` and `DbWeb.Run` and on the typed functions that call them.
- `DbWeb.GetAllProgress`, `DbWeb.GetRewards`, `DbWeb.GetSetting` and `DbWeb.SetSetting` hand `Run` the statement their fixed SQL text stands for. No lemma shows that `Classify` maps each of these texts to that statement: unfolding the case mapping and the phrase searches over the literal texts costs more than the verifier's budget.
- `ParentDashboard.FormatPlaytime`: its contract only bounds the negative durations (the text still ends in `m`). The exact read-back, `ParentDashboard.FormatReadsBack`, covers durations ≥ 0, the only ones the store holds.
- `ParentDashboard.ResetClearsDashboard` is stated for a browser store whose progress keys are unique, the state the browser `initDB` leaves. With duplicate rows in the browser store only the rows the dashboard shows are reset (see the notes below). The SQLite backend is not modelled as a store: there `game_key` carries no `UNIQUE` constraint (`src/database/schema.ts:9-18`), so the `INSERT OR IGNORE` seed (`src/database/schema.ts:36`) adds fifteen more rows on every `initDB()` (`App.tsx:10`), and the reset's `UPDATE ... WHERE game_key = ?` (`src/database/db.ts:79-81`) writes every duplicate row.
- The report text and date of the dashboard's export are not modelled: they are display formatting built from the same totals the model computes.
- The dashboard's `|| 0` on numeric columns is the identity, because every column of the model is a number.
- The dashboard is modelled on the browser backend's store. On a phone the same calls go to SQLite, which is not modelled.
- `HomeScreen.HandleCreateUser` passes no avatar (`None`), as the screen does, so the store applies the default one.
- `ParentDashboard.ToggleSound` models the write of the `sound_enabled` setting. The value written is the one `setMusicEnabled` in `src/utils/sound.ts` stores: `'1'` for on, `'0'` for off. The rest of `sound.ts` is not part of this model.

## Findings

| source | as written | input that shows it | evidently intended | confidence | as-written member | corrected member |
|---|---|---|---|---|---|---|
| src/utils/math.ts:30-61 | the normal tier allows subtraction from level 2; an answer below `2 - spread` has fewer than three non-negative neighbours within the spread, so the option loop never ends | `generateMathQuestion(2)` drawing `a = 1`, `b = 20` and `-`: answer −19 with spread 5 (Math Monsters asks such questions) | subtraction with the larger operand first, so every answer is ≥ 0 and the loop can always finish | high, not executed | MathUtil.NormalLevelTwoSubtractionHangs | MathUtil.GenerateMathQuestionFixed, MathUtil.FixedQuestionCanFinish |
| src/games/artDetective/index.tsx:81-87 | `totalTarget` counts targets on the board before the tap, so the test fires only when `2 found + 1` equals the number of copies | level 1 has 4 copies: the found count goes 1, 2, 3, 4 and never meets the shrinking count | the level completes when the last copy is found | high, not executed | ArtDetective.EvenBoardNeverCompletes, ArtDetective.OpeningBoardNeverCompletes | ArtDetective.PressFixed, ArtDetective.FixedFindsAll |
| src/games/colorMatchParade/index.tsx:96-124 | every correct tap that is not a level-up schedules `startParade()` 800 ms later, which sets the hits back to 0 | any correct tap from 0 hits whose refresh runs before the next tap: 1 hit, then 0 again; every threshold is at least 2, so a child who waits for each new parade never completes a level, and only two taps inside the 800 ms can (`ColorMatch.QuickTapsLevelUp`) | the refresh draws a new target and row but keeps the hits | high, not executed | ColorMatch.RoundStaysAtZero, ColorMatch.RoundsNeverLevelUp | ColorMatch.RoundFixed, ColorMatch.FixedLevelsUp |
| src/database/dbWeb.ts:141 | the default avatar literal is the UTF-8 bytes of the boy emoji read as Windows-1252: four characters `ðŸ‘¦` | `createUser('Ann', 6)` with no avatar: the browser backend stores `ðŸ‘¦`, the SQLite backend (`src/database/db.ts:50`) stores the emoji | the emoji U+1F466 in both backends | high, not executed | DbWeb.AvatarOrDefault, DbNative.BackendDefaultsDiffer | DbWeb.AvatarOrDefaultFixed, DbNative.FixedDefaultsAgree |
| src/games/storyBuilder/index.tsx:97-106 | the level-up saves the render's `score` and `storiesCreated`, before this story's update | the third story: the screen shows the score plus 50, but the save has the old score and `floor(2 / 3) = 0` stars | save the new score and the stars of the new story count | medium, not executed | StoryBuilder.FirstLevelUpSavesNoStars, StoryBuilder.SavedLagsShown | StoryBuilder.CreateStoryFixed |
| src/database/db.ts:74-80 | the SET clause is the joined fields, then `, last_played = ...` | `updateGameProgress(key, {})`: `SET , last_played = ...`, which the engine rejects | the comma only between non-empty parts | medium, not executed | DbNative.EmptyPatchMalformed | DbNative.UpdateStatementFixed, DbNative.UpdateStatementWellFormedFixed |
| src/screens/HomeScreen.tsx:52-57 | an age with no leading digit parses to `NaN`, which fails both range comparisons | the age field holding `ab`: a user is created with no age | refuse an age that is not a number | high, not executed | HomeScreen.LettersAgeAccepted | HomeScreen.HandleCreateUserFixed, HomeScreen.FixedDiffersOnlyOnNaN |

## Notes on the code

Facts about the code that the model follows and that are easy to misread:

- **Reset scope.** `handleResetProgress` calls `updateGameProgress` once for each row the dashboard shows, which are the deduplicated list. In the browser store `updateGameProgress` patches only the first row with the key (`find`, `src/database/dbWeb.ts:162`), so with duplicate keys only the first row of each key is reset. On a phone the SQLite statement `UPDATE ... WHERE game_key = ?` writes every row with the key, duplicates included; that backend is the one where duplicates arise, since its seed adds fifteen rows on every launch.
- **Missing rows.** Both backends' `updateGameProgress` leave the store unchanged when the key has no row (`DbWeb.UpdateGameProgress`); no row is created.
- **The level-up rules differ by game.** Not every game uses `scaleNeeded`:
  - Chef Fractions levels up every fifth answer (`% 5`) and Story Builder every third story (`% 3`);
  - Fruit Finder always needs 5;
  - Eco Guardians scales its own targets, with +2 on hard;
  - Math Monsters levels up on the monster's health (four right answers: the monster loses 20, 25, 30, 35), asks questions at the default normal tier, and rates stars with `calculateStars`.
- **The saved score.** Logic Town saves the render's `score + 50`, without the last placement's 10; Story Builder saves the score before the story; Math Monsters saves the score of the render that ran the health effect.

Behaviour worth knowing that the model states but does not count as a finding:

- Logic Town's saved level-up lacks the final placement's 10 points.
- Several games draw the next round in a timer closure that still sees the old level, so the first round after a level-up is sized for the previous level.
- Letter Pop puts the target letter first in the balloon row, always.
- Letter Pop's balloons stay tappable for the 1200 ms before the next row, and each pop of the target in that time scores 15 and counts again (`LetterPop.QuickPopsCountTwice`).
- Science Lab on the easy tier saves the same level-up twice when the fourth experiment is finished before the level-move timer clears the record (`ScienceLab.EasyLevelSavedTwice`). This needs the child to close the reward modal, then select and mix the fourth experiment's ingredients in the at most one second between the result screen closing (2 s) and the reward timer firing (3 s).
- Eco Guardians displays the unscaled target while it requires the scaled one on easy and hard.
- The dashboard's `parseInt` without a radix reads `0x1F` as 31, and `5x` as 5.
