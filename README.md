# Bluetooth, serial and network test scripts, modelled in Dafny

The repository is a set of Python scripts that a test engineer uses on
a Linux bench to drive a device under test (UUT):

- **BLE connectors** (`tests/ble_control.py`, `tests/ble_connector.py`,
  `tests/test.py`, `tests/daq_plotter.py`, `tests/all_ble_serail.py`,
  `tests/only_ble_wakeup.py`). They:
  - pick a USB Bluetooth adapter from `hciconfig` output;
  - guard the adapter with a lock file, either a plain file or `fcntl`;
  - retry each step with backoff `min(2^attempt, 30)`;
  - scan for the target by name and choose its MAC by first match, last
    match or majority vote;
  - connect with `hcitool lecc`;
  - release the lock on every path.
- **A classic Bluetooth reconnect tester** (`tests/bt_reconnect_linux.py`)
  built on `bluetoothctl`.
- **Serial tools**:
  - a hex echo tester with its hex codecs (`tests/serial_test_tool.py`);
  - a terminal with a send history and a receive queue
    (`tests/serail_tool.py`);
  - a hex ↔ ASCII converter (`tests/hex_ascii_chang.py`);
  - two sleep/wake monitors that cut the serial stream into lines and raise
    flags when marker lines arrive (`tests/device_sleep_from_serail.py`,
    `tests/device_sleep_manager.py`).
- **Telnet console monitors** (`tests/uut_console_monitor.py`,
  `tests/uut_sleep_monitor.py`). They refuse every Telnet option the
  terminal server offers, probe whether the UUT is running, send it sleep
  commands and watch its console for wake markers.
- **Wake-on-LAN senders** (`tests/wifi_wake_linux.py`,
  `tests/wifi_wakeup.py`), which broadcast the magic packet.
- **Smaller pieces**:
  - a device power-state transition table (`tests/test_ble_reconect.py`);
  - two exercise solutions, two-sum and linked-list digit addition
    (`tests/leetcode_test.py`);
  - a filter that splits a text into its Chinese and its Latin characters
    (`tests/remove_chinese.py`).

One Dafny module models each script or family of scripts:

- **Family modules:**
  - `Adapter`, `Retry`, `Lock`, `ScanMatch` and `BleController` model the
    BLE connector family.
  - `BleSerialCycle` and `BleWakeup` model its two stand-alone cousins.
  - `ClassicBt` models the classic reconnect tester.
- **Serial-tool modules:**
  - `SerialTest`, `SerialTerminal` and `HexAscii` model the serial tools.
  - `LineFraming`, `SerialSleepTest` and `SleepManager` model the serial
    monitors.
- **Console and network modules:**
  - `Telnet` and `UutMonitor` model the console monitors.
  - `Wol`, `WifiWakeLinux` and `WifiWakeup` model the Wake-on-LAN senders.
- **Other modules:**
  - `PowerStates`, `LeetCode` and `TextFilter` model the small pieces.
  - `Base`, `Text`, `Hex` and `Utf8` hold the Python string, hex and
    UTF-8 operations shared by all of them.

**How outside effects are modelled:**

- Every call to the outside world is an input to the model:
  - a shell command, a socket `recv` or `send` and a serial read are each
    given as the sequence of their results, one per call;
  - a lock file is a cell of the host that the methods read and update.
- Each retried operation returns the waits that depend on how its run
  goes, as lists of lengths or as counts: the retry backoffs, the lock
  polling, the pauses between Wake-on-LAN sends and the 2 s sleeps after
  failed attempts. The scripts that call several such operations in a row
  do not add their waits up; "Left out" names each of them, and the fixed
  settling pauses, which are not recorded. Nothing measures real time.
- Exceptions are values of an outcome datatype.
- Objects whose methods update their fields are Dafny classes, with the
  same fields.

## Model

| member | source | states |
|---|---|---|
| Text.TrimLeftShape | tests/ble_control.py:189 | `lstrip` gives a suffix of the input with only white space cut off, and does not start with white space |
| Text.TrimRightShape | tests/ble_control.py:189 | `rstrip` gives a prefix of the input with only white space cut off, and does not end with white space |
| Text.Strip | tests/ble_control.py:189 | the result neither starts nor ends with white space, and is empty exactly when the input is all white space |
| Text.StripSlice | tests/ble_control.py:189 | `str.strip` cuts white space from both ends of one slice of the input |
| Text.StripKeeps | tests/ble_control.py:189 | text with no white space at either end is its own strip |
| Text.Lower | tests/only_ble_wakeup.py:232 | one character out per character in, each lowered |
| Text.LowerAppend | tests/only_ble_wakeup.py:242-250 | lowering distributes over concatenation |
| Text.IndexOf | tests/ble_control.py:117 | the first position of the character, or the length when it is absent |
| Text.Split | tests/ble_control.py:109-117 | `str.split(c)` gives at least one part and no part holds the separator |
| Text.SplitJoin | tests/ble_control.py:109-117 | joining the parts with the separator gives the input back |
| Text.JoinCons | tests/ble_control.py:109-117 | a first part joined before the others: followed by the separator and their join, or alone when there are none |
| Text.FirstBreak | tests/ble_control.py:446 | the first line break, or the length when there is none |
| Text.SplitLines | tests/ble_control.py:446-484 | no line holds a line break |
| Text.RemoveChar | tests/wifi_wake_linux.py:70 | replacing a character by nothing removes every copy of it and keeps the rest in order |
| Text.ReplaceCharAppend | tests/wifi_wake_linux.py:70 | replacing a character distributes over concatenation |
| Text.ReplaceAbsent | tests/wifi_wake_linux.py:70 | a text without the pattern is left as it is |
| Text.Filter | tests/remove_chinese.py:23-25 | only characters that pass are kept, never more than were given |
| Text.FilterKeepsAll | tests/remove_chinese.py:23-25 | a text whose characters all pass is left as it is |
| Text.FilterIdempotent | tests/remove_chinese.py:23-25 | filtering twice is filtering once |
| Text.FilterSubsequence | tests/remove_chinese.py:23-25 | the output is the input with characters deleted |
| Text.ContainsOccurs | tests/uut_console_monitor.py:250 | `sub in s` holds only at an actual occurrence |
| Text.ContainsInfix | tests/uut_console_monitor.py:250 | a text holding `sub` still holds it with anything around it |
| Text.ContainsPastPrefix | tests/only_ble_wakeup.py:242 | a prefix with no character equal to the first of `sub` changes nothing about `sub in s` |
| Hex.ByteHex | tests/serial_test_tool.py:573 | `'%02X'` gives two upper-case hex digits whose value is the byte |
| Hex.UpperDigit | tests/serial_test_tool.py:573 | an upper-case hex digit of the given value |
| Hex.FromHex | tests/serial_test_tool.py:567 | a parse has at most half as many bytes as the text has characters |
| Hex.FromSpacedHex | tests/serial_test_tool.py:567-573 | reading back the blank-separated digits of `bytes_to_hex_string` gives the bytes |
| Hex.FromCompactHex | tests/hex_ascii_chang.py:115-120 | reading back the digits without separator gives the bytes; the text has two characters per byte |
| Hex.SpacedHexChars | tests/serial_test_tool.py:573 | the blank-separated form holds only upper-case hex digits and blanks |
| Hex.CompactHexDigits | tests/serial_test_tool.py:573 | the form without separator holds only upper-case hex digits |
| Hex.FromHexDigits | tests/serial_test_tool.py:560-567 | an even number of hex digits always parses, to half as many bytes |
| Hex.FromHexOddDigits | tests/serial_test_tool.py:563-564 | an odd number of hex digits never parses |
| Hex.FromHexRejects | tests/serial_test_tool.py:566-569 | a character that is neither a hex digit nor whitespace makes the parse fail |
| Hex.PairsTail | tests/serial_test_tool.py:573 | the pairs of a non-empty input are its first byte's pair followed by the rest's |
| HexAscii.DecodeAscii | tests/hex_ascii_chang.py:120 | `decode("ascii")` succeeds exactly when every byte is below 128, keeping each as one character |
| HexAscii.EncodeAscii | tests/hex_ascii_chang.py:135 | `encode("ascii")` succeeds exactly when every character is ASCII, keeping each as one byte |
| HexAscii.HexToAscii | tests/hex_ascii_chang.py:106-124 | a warning exactly for blank input; a conversion only for an even cleaned length and only to ASCII text |
| HexAscii.AsciiToHex | tests/hex_ascii_chang.py:126-142 | a warning exactly for blank input; an error exactly when the stripped text has a non-ASCII character; otherwise three characters per byte, less one |
| HexAscii.SpacedLength | tests/hex_ascii_chang.py:136 | blank-separated pairs take three characters per byte, less one |
| HexAscii.OddLengthFails | tests/hex_ascii_chang.py:117-118 | an odd number of characters left after cleaning is an error |
| HexAscii.HighByteFails | tests/hex_ascii_chang.py:120-124 | a byte of 128 or more is an error |
| HexAscii.NonHexFails | tests/hex_ascii_chang.py:120-124 | a character left after cleaning that is neither a hex digit nor whitespace is an error |
| HexAscii.UnspacedHex | tests/hex_ascii_chang.py:115 | deleting the blanks from the spaced form gives the compact form |
| HexAscii.RoundTrip | tests/hex_ascii_chang.py:106-142 | converting stripped non-empty ASCII text to hex and back gives the text again |
| HexAscii.SpacedReadBack | tests/hex_ascii_chang.py:106-124 | the spaced hex of ASCII bytes converts to those characters |
| HexAscii.DecodeEncoded | tests/hex_ascii_chang.py:120-135 | decoding what encoding gave yields the text again |
| HexAscii.SpacedStripped | tests/hex_ascii_chang.py:108-136 | the spaced form is unchanged by strip |
| HexAscii.CleanedSpaced | tests/hex_ascii_chang.py:115-136 | cleaning the spaced form gives the compact form |
| HexAscii.SpacedEnds | tests/hex_ascii_chang.py:136 | the spaced form starts and ends with a hex digit |
| LeetCode.IndexedStep | tests/leetcode_test.py:19-24 | recording `nums[i]` under index `i` keeps the dictionary mapping every value seen to the last index where it was seen |
| LeetCode.NoPairStep | tests/leetcode_test.py:20-24 | when the complement of `nums[i]` is not in the dictionary, no element before `i` pairs with it |
| LeetCode.FoundPair | tests/leetcode_test.py:20-23 | when the complement is in the dictionary, its index and `i` sum to the target, no earlier index completes a pair, and no element between them pairs with `nums[i]` |
| LeetCode.TwoSum | tests/leetcode_test.py:17-26 | `[]` exactly when no pair sums to the target; otherwise `[j, i]` with `j < i` and `nums[j] + nums[i] == target`, `i` the smallest index that completes a pair and `j` the latest partner before it |
| LeetCode.ListNode.constructor | tests/leetcode_test.py:11-14 | the value and successor as given |
| LeetCode.ListTail | tests/leetcode_test.py:83-85 | the successor of a list's head is the list of the remaining nodes and values |
| LeetCode.CreateLinkedList | tests/leetcode_test.py:71-79 | `None` exactly for an empty array; otherwise fresh, distinct nodes holding the array in order |
| LeetCode.ListValues | tests/leetcode_test.py:81-86 | the values collected by walking a list are its values, in order |
| LeetCode.RoundTrip | tests/leetcode_test.py:71-86 | building a list from an array and walking it gives the array back |
| LeetCode.AddValue | tests/leetcode_test.py:28-45 | the digits of the sum are worth, little-endian, the sum of the inputs' values plus the carry |
| LeetCode.AddProducesDigits | tests/leetcode_test.py:37-39 | every digit of the sum lies in 0..9 |
| LeetCode.AddLength | tests/leetcode_test.py:33-40 | the sum of two digit lists has the longer one's length, or one more for a final carry |
| LeetCode.AddExample | tests/leetcode_test.py:94-97 | 342 + 465: [2, 4, 3] and [5, 6, 4] give [7, 0, 8] |
| LeetCode.AddStep | tests/leetcode_test.py:34-43 | one pass of the loop keeps the digits written so far plus the digits still to come equal to the whole sum |
| LeetCode.Append | tests/leetcode_test.py:39-40 | the new node is fresh, the list gains it and its value at the end |
| LeetCode.AddCons | tests/leetcode_test.py:33-40 | while a digit or a carry is left, the next output digit is the column sum modulo 10 and the rest is the sum of the tails with the column's carry |
| LeetCode.ReadDigit | tests/leetcode_test.py:34-43 | the digit read is the list's current value, or 0 past its end, and the walk moves one node on unless it has ended |
| LeetCode.AddNode | tests/leetcode_test.py:34-43 | one pass appends one fresh node that is in neither input, leaves both inputs unchanged, advances each input unless it has ended, and keeps the sum still to come |
| LeetCode.AddTwoNumbers | tests/leetcode_test.py:28-45 | the result is a list holding the digit sum of the inputs; it shares no node with either input, and the input lists are unchanged |
| TextFilter.RunLength | tests/remove_chinese.py:23 | the length of the class run `s` opens with, maximal |
| TextFilter.FindAllCjk | tests/remove_chinese.py:23 | every run found is non-empty and made of class characters |
| TextFilter.EnglishClassIsRange | tests/remove_chinese.py:25 | the class `[\a-zA-Z]` is the one range U+0007..'z' |
| TextFilter.ChineseIsFilter | tests/remove_chinese.py:23 | the joined runs are exactly the input's characters in U+4E00..U+9FFF, in order |
| TextFilter.FilterMembers | tests/remove_chinese.py:23-25 | a character is in a filter's output exactly when it is in the input and passes |
| TextFilter.ChineseMembers | tests/remove_chinese.py:23 | the Chinese text holds exactly the input's characters in U+4E00..U+9FFF |
| TextFilter.EnglishMembers | tests/remove_chinese.py:25 | the English text holds exactly the input's characters in U+0007..'z' |
| TextFilter.EnglishText | tests/remove_chinese.py:25 | only characters of the class U+0007..'z' are left, never more than came in |
| TextFilter.OutputsAreSubsequences | tests/remove_chinese.py:23-26 | both outputs are subsequences of the input |
| TextFilter.OutputsDisjoint | tests/remove_chinese.py:23-26 | no character can land in both outputs |
| TextFilter.FiltersIdempotent | tests/remove_chinese.py:23-26 | each filter leaves its own output unchanged |
| TextFilter.EnglishExample | tests/remove_chinese.py:25 | digits, a blank and '!' survive the English filter; '{' and a Chinese character do not |
| LineFraming.CutFound | tests/device_sleep_from_serail.py:111-112 | the cut is inside the buffer exactly when it holds a '\n', is at the first one, and no '\n' comes before it |
| LineFraming.CutStep | tests/device_sleep_from_serail.py:111-112 | cutting at the first '\n' gives its line, then the lines and leftover of what follows |
| LineFraming.CutEnd | tests/device_sleep_from_serail.py:111 | a buffer without '\n' gives no line and stays as it is |
| LineFraming.PiecesNoBreak | tests/device_sleep_from_serail.py:111-112 | no piece holds a '\n' |
| LineFraming.PiecesJoin | tests/device_sleep_from_serail.py:111-112 | the pieces joined by '\n' give the text back |
| LineFraming.CutAppend | tests/device_sleep_from_serail.py:111-112 | text appended after a '\n' does not move the first cut |
| LineFraming.ChunkingIrrelevant | tests/device_sleep_from_serail.py:105-112 | the lines and leftover do not depend on how the text was split into reads |
| LineFraming.KeptOne | tests/device_sleep_from_serail.py:113-114 | a line is kept, stripped, exactly when it is not blank |
| LineFraming.Kept | tests/device_sleep_from_serail.py:113-114 | at most one line per piece, each non-blank and without white space at either end |
| LineFraming.KeptAppend | tests/device_sleep_from_serail.py:113-114 | keeping lines distributes over concatenation |
| LineFraming.KeptShape | tests/device_sleep_from_serail.py:113-114 | a kept line is never empty and holds no '\n' |
| LineFraming.Lifetime | tests/device_sleep_from_serail.py:102-131 | the lines heard during reading plus the non-blank leftover are the non-blank pieces of everything read |
| LineFraming.TextsSnoc | tests/device_sleep_from_serail.py:106-108 | the text of one more read is the previous text followed by that read's |
| LineFraming.ReadStep | tests/device_sleep_from_serail.py:102-127 | one more read adds exactly the lines framed from the buffer and that read |
| LineFraming.Heard | tests/device_sleep_from_serail.py:102-127 | every line handed on is non-blank and has no white space at either end |
| LineFraming.HeardAppend | tests/device_sleep_from_serail.py:102-127 | the lines heard over two runs of reads are those of the first followed by those of the second from the first's leftover |
| LineFraming.AnyHasAppend | tests/device_sleep_from_serail.py:119-124 | a flag is in two line lists exactly when it is in one of them |
| LineFraming.HeardMore | tests/device_sleep_from_serail.py:119-124 | once a flag was heard, further reads cannot unhear it |
| LineFraming.StripPieces | tests/device_sleep_manager.py:98-103 | the stripped non-blank lines of the pieces, in order |
| LineFraming.FrameChunk | tests/device_sleep_manager.py:92-103 | the complete lines of buffer and chunk, and the leftover, which holds no '\n' |
| Lock.StopFrom | tests/ble_control.py:352-362 | the first poll from `i` at which the waiting loop leaves, none before it |
| Lock.StopPoll | tests/ble_control.py:352-362 | the first poll at which the waiting loop leaves, none before it |
| Lock.WaitBounded | tests/ble_control.py:349-354 | the loop leaves within the 30 s limit plus one poll |
| Lock.StopFromAt | tests/ble_control.py:352-362 | a poll that stops, with none before it from `i`, is where the loop leaves |
| Lock.StopPollAt | tests/ble_control.py:352-362 | a poll that stops, with none before it, is where the loop leaves |
| Lock.FreeAtOnce | tests/ble_control.py:352 | a missing file is taken without sleeping |
| Lock.PlainLock.constructor | tests/ble_control.py:27-54 | the lock path as given, no file and no owner |
| Lock.PlainLock.Acquire | tests/ble_control.py:348-384 | the number of sleeps is where the loop leaves, within the limit; a successful write returns the path with the file held by this pid; otherwise `None`, the file deleted if it was stale and otherwise unchanged |
| Lock.PlainLock.AcquireRetried | tests/all_ble_serail.py:153-192 | a path exactly when some attempt within `max_retries` writes the file, at the first such attempt, with the file held by this pid |
| Lock.PlainLock.Release | tests/ble_control.py:386-396 | the file is deleted exactly when a lock was returned, the file exists and can be removed; otherwise nothing changes |
| Lock.Decisive | tests/ble_connector.py:370-407 | the first `flock` try that is not `BlockingIOError`, none before it |
| Lock.Outcome | tests/ble_connector.py:350-408 | an attempt succeeds exactly when it obtains the lock, and then yields the path |
| Lock.TicksBounded | tests/ble_connector.py:389-407 | waiting never exceeds the 300 polls of 0.1 s |
| Lock.FcntlLock.constructor | tests/ble_connector.py:24-52 | no descriptor, no lock file, nothing held, no file open |
| Lock.FcntlLock.AcquireOnce | tests/ble_connector.py:350-408 | the path exactly when a `flock` try is granted; then this descriptor holds the lock and the path is recorded; a failed `os.open` changes nothing; a timeout closes the descriptor and an error leaves it open |
| Lock.FcntlLock.Acquire | tests/ble_connector.py:341-422 | the bounded retry of single attempts: the path at the first success, `None` when all fail, the waits in between; on success the lock is held |
| Lock.FcntlLock.SetLockFile | tests/ble_control.py:1015 | only the recorded lock path changes |
| Lock.FcntlLock.Release | tests/ble_connector.py:423-458 | the descriptor is unlocked, closed and cleared when set; the file is deleted and the path cleared exactly when a path is recorded and the file exists |
| Adapter.FirstHitFrom | tests/ble_control.py:114-130 | the first line at or after `k` reporting "UP RUNNING" inside a listed USB device's block, and no such line before it |
| Adapter.UsbNamesPrefix | tests/ble_control.py:114-122 | a USB device listed while reading a prefix of the output stays listed for the whole output |
| Adapter.DetectFirstRunning | tests/ble_control.py:91-144 | a failing `hciconfig` ends the process (no adapter); otherwise the result is the first-running choice over the output's lines |
| Adapter.SelectedIsUsb | tests/ble_control.py:114-136 | the chosen adapter is always one of the USB devices listed |
| Adapter.SelectedNoneIff | tests/ble_control.py:133-140 | nothing is chosen, and the process exits, exactly when no USB device is listed |
| Adapter.NothingRunningFirstUsb | tests/ble_control.py:133-136 | when no line says "UP RUNNING", the first USB device listed is chosen |
| Adapter.RecordsStep | tests/test.py:102-123 | the records after one more line are the records so far scored by that line |
| Adapter.RecordsPerHeader | tests/test.py:104-111 | every header line creates exactly one record, no other line does |
| Adapter.NonUsbScoreZero | tests/test.py:114-123 | only USB records are scored: every non-USB record keeps score 0 |
| Adapter.UsbRecords | tests/test.py:126 | the USB records, each one a record of the list, every USB record of the list among them, and no more of them than records |
| Adapter.UsbRecordsAppend | tests/test.py:126 | the filter keeps the list's order: it distributes over concatenation |
| Adapter.FirstMax | tests/test.py:139 | `max` with a key: an index of the highest score, and every earlier record scores strictly lower |
| Adapter.ReadLine | tests/test.py:104-123 | one pass of the parsing loop updates the records as `ScoreLine` says (header appends score 0; +10 for "UP RUNNING"; -5 for "PSCAN" without "ISCAN") |
| Adapter.ScoreDevices | tests/test.py:102-123 | the loop over all lines builds exactly the records the per-line update defines |
| Adapter.DetectByScore | tests/test.py:89-147 | a failing `hciconfig` gives no adapter; otherwise the records of the output and the score-based choice over them |
| Adapter.ChooseMeaning | tests/test.py:126-143 | the choice is a USB record; the only one when there is one, else one with the highest score beating every USB record before it |
| Adapter.ChooseNoneIff | tests/test.py:128-130 | nothing is chosen, and the process exits, exactly when no record is USB |
| Retry.Pow2 | tests/ble_control.py:246 | `2 ** n` is at least 1 |
| Retry.Backoff | tests/ble_control.py:246 | `min(2 ** attempt, 30)` never exceeds 30 |
| Retry.Waits | tests/ble_control.py:245-254 | one wait per failed attempt but the last, the wait after attempt `i` being `min(2 ** i, 30)` |
| Retry.FirstOk | tests/ble_control.py:243-244 | the first attempt whose result is neither `False` nor `None`, none before it |
| Retry.RetryOperation | tests/ble_control.py:229-272 | `max_retries` from the keyword argument or the default; the result of the first good attempt, else `None`; the number of attempts made and the waits between them |
| Retry.FirstOkAt | tests/ble_control.py:243-244 | a good attempt with none good before it is the first |
| Retry.NoneWhenAllFail | tests/ble_control.py:271-272 | when every attempt fails the result is `None` |
| Retry.RetryNoneIff | tests/ble_control.py:240-272 | the result is `None` exactly when every attempt fails |
| Retry.RetryResultWitness | tests/ble_control.py:243-244 | a result is the value of an attempt with no good attempt before it |
| Retry.RetryMoreAttempts | tests/ble_control.py:240-244 | allowing more attempts does not change a result already reached |
| Retry.Pow2Grows | tests/ble_control.py:246 | `2 ** n` is monotone |
| Retry.BackoffShape | tests/ble_control.py:246 | waits of 2, 4, 8, 16 and then 30 s, never decreasing |
| Retry.WaitsTotal | tests/ble_control.py:245-254 | the waits of `n` failures total at most `30 n` s |
| Retry.SumAppend | tests/ble_control.py:245-254 | the total of one more wait adds that wait |
| Retry.RetryTruthy | tests/bt_reconnect_linux.py:129-145 | success exactly when some attempt within `max_retry` succeeds, stopping at the first; waits of `2 ** attempt` s between attempts, with no cap |
| ScanMatch.ParseScanLine | tests/ble_control.py:405-432 | a matched line is a 17-character MAC, a blank and the name |
| ScanMatch.MatchingMacs | tests/ble_control.py:484-488 | at most one MAC per line |
| ScanMatch.MatchingMacsFromLines | tests/ble_control.py:484-488 | every collected MAC is that of a line that matches and names the device |
| ScanMatch.FirstMatchIndex | tests/ble_control.py:431-433 | the first line that matches and names the device, none before it |
| ScanMatch.FirstMatchIff | tests/ble_control.py:431-442 | a line is found while polling exactly when the final collection is not empty |
| ScanMatch.CountStep | tests/ble_control.py:492 | counting one more MAC adds one exactly when it is the one counted |
| ScanMatch.CountPositive | tests/ble_control.py:492 | a MAC in the list is counted at least once |
| ScanMatch.LeaderFrom | tests/ble_control.py:493 | the leader's index lies in the list |
| ScanMatch.LeaderFromWins | tests/ble_control.py:493 | the scan keeps the first MAC with the greatest count |
| ScanMatch.VoteWinner | tests/ble_control.py:491-495 | `most_common(1)` answers exactly for a non-empty list, with its first MAC of greatest count |
| ScanMatch.MostCommon | tests/ble_control.py:492-493 | the vote of the `Counter` |
| ScanMatch.CountAbsent | tests/ble_control.py:492 | a MAC not in the list has count 0 |
| ScanMatch.WinnerUnique | tests/ble_control.py:493 | there is one winner |
| ScanMatch.WinnerFirst | tests/ble_control.py:493 | no later MAC with the same count wins |
| ScanMatch.WinnerObserved | tests/ble_control.py:491-493 | the winner was seen, and a MAC seen in more than half the lines wins |
| ScanMatch.CountTwo | tests/ble_control.py:492 | two different MACs' counts add to at most the list's length |
| ScanMatch.FirstPollHit | tests/ble_control.py:423-446 | the first poll whose file has a matching line, none before it |
| ScanMatch.ScanLines | tests/ble_control.py:431-442 | the MAC of the first line that matches and names the device |
| ScanMatch.FirstMatchAt | tests/ble_control.py:431-433 | a matching line with none before it is the first |
| ScanMatch.FirstPollHitAt | tests/ble_control.py:423-446 | a poll with a hit and none before it is the first |
| ScanMatch.PollScan | tests/ble_control.py:423-495 | the early hit while polling, else the majority vote over the final file |
| ScanMatch.CollectMatches | tests/ble_control.py:483-488 | the MACs of the matching lines, in order |
| ScanMatch.PollResultObserved | tests/ble_control.py:431-442 | an early hit is a MAC that collecting that poll's file would also give |
| ScanMatch.FirstMatchInMatching | tests/ble_control.py:431-488 | the early hit is the first MAC of the collection |
| ScanMatch.NoMatchesEmpty | tests/ble_control.py:484-490 | with no matching line nothing is collected |
| ScanMatch.LeftmostFind | tests/only_ble_wakeup.py:171-172 | the leftmost place in a line where a match of the `findall` pattern starts, none before it |
| ScanMatch.FindAll | tests/only_ble_wakeup.py:171-172 | every MAC `findall` gives is 17 characters of MAC form |
| ScanMatch.MacSlice | tests/only_ble_wakeup.py:171 | a MAC found inside a line is a MAC on its own |
| ScanMatch.LastFindIff | tests/only_ble_wakeup.py:172-175 | the last `findall` match exactly when there is one |
| ScanMatch.LastFind | tests/only_ble_wakeup.py:171-175 | a match found is a 17-character MAC |
| ScanMatch.LastFindOverrides | tests/only_ble_wakeup.py:172-175 | a later line with a match decides the result over earlier ones |
| ScanMatch.FindAllAppend | tests/only_ble_wakeup.py:172 | `findall` over two blocks of lines is the concatenation |
| ScanMatch.LeftmostPair | tests/bt_reconnect_linux.py:170-171 | the leftmost offset of the whole output, at or after the start, where a MAC, whitespace (line breaks included) and a character that is not a line break follow; no match before it |
| ScanMatch.SpaceEnd | tests/bt_reconnect_linux.py:170 | the greedy `\s+` takes the whole run of whitespace, line breaks included |
| ScanMatch.NameStart | tests/bt_reconnect_linux.py:170 | `(.+)` starts at the last place in the whitespace run that leaves a character other than a line break after it; every later place offers only line breaks or the end |
| ScanMatch.LineEnd | tests/bt_reconnect_linux.py:170 | `(.+)` runs to the next line break, or to the end of the output |
| ScanMatch.PairsFrom | tests/bt_reconnect_linux.py:170-171 | `findall` over the whole output: every pair carries a 17-character MAC |
| ScanMatch.PairsFromMatches | tests/bt_reconnect_linux.py:170-171 | every pair's MAC is the MAC of a match in the output, and there is no pair exactly when no offset of the output matches |
| ScanMatch.NameOnNextLine | tests/bt_reconnect_linux.py:170-171 | a MAC whose name is on the next line is paired with that name |
| ScanMatch.SpacesAcrossLine | tests/bt_reconnect_linux.py:170-171 | blanks and a line break after the MAC are all skipped, and the next line is the name |
| ScanMatch.FirstTargetMac | tests/bt_reconnect_linux.py:174-179 | a MAC exactly when some pair's name contains the target, case-insensitively; it is the first such pair's |
| BleController.FirstEmpty | tests/ble_control.py:187-198 | the index of the first empty stripped line, none before it |
| BleController.StreamAsWritten | tests/ble_control.py:187-198 | the reading loop as written: the stripped lines up to, not including, the first blank one, where the stream is dropped as if at end of file |
| BleController.StreamToEof | tests/ble_control.py:187-198 | the loop as evidently intended: the non-blank stripped lines of the whole stream |
| BleController.StreamToEofKeeps | tests/ble_control.py:189-196 | every non-blank line of the stream is kept |
| BleController.NonBlankNoEmpty | tests/ble_control.py:190-196 | with no blank line nothing is dropped |
| BleController.StreamsAgreeWithoutBlank | tests/ble_control.py:187-198 | without blank lines the loop as written reads the whole stream |
| BleController.BlankLineTruncates | tests/ble_control.py:188-197 | for any two non-blank lines around a blank one, the code as written reads only the first (stripped), while reading to the end of the stream gives both |
| BleController.RunCommand | tests/ble_control.py:146-227 | corrected: reading to the end of the stream as the corrected loop does, the result tuple is the kept lines joined by newlines with the exit code; the fixed timeout tuple with code -1; the exception tuple with code -1 |
| BleController.FailedCommandStdout | tests/ble_control.py:205-227 | a timed-out or unstartable command shows none of the command's own text in `stdout` |
| BleController.StdoutShowsLine | tests/ble_control.py:193-218 | corrected: with the corrected read loop, every non-blank output line of a completed command occurs in the returned `stdout` |
| BleController.EnsureOutcome | tests/ble_control.py:313-339 | an attempt succeeds exactly when the first status or the one after `up` shows "UP RUNNING" |
| BleController.EnsureCommandsShape | tests/ble_control.py:316-329 | no `up` is sent to a running adapter; one that is down gets status, one `up`, status |
| BleController.EnsureAdapterReady | tests/ble_control.py:309-342 | `True` exactly when some attempt within `max_retries` finds the adapter running; then the commands and backoff waits are those of the attempts up to the first such one; otherwise `None` with the commands and waits of all attempts |
| BleController.EnsureFirstReady | tests/ble_control.py:313-329 | the first attempt the retry wrapper counts as successful is the first that finds the adapter running |
| BleController.ResetOutcome | tests/ble_control.py:278-304 | a reset attempt succeeds exactly when the final status shows "UP RUNNING" |
| BleController.ResetAdapter | tests/ble_control.py:274-307 | `True` exactly when some reset leaves the adapter running, made at the first such reset; otherwise `None` after `max_retries`; the attempts and backoff waits are those of `ResetMade` and `ResetWaits`; every attempt issues down, reset, up, status |
| BleController.ResetMade | tests/ble_control.py:274-307 | the attempts a reset makes: at most `max_retries`, fewer only when the last one leaves the adapter running, none before it doing so |
| BleController.ConnectOutcome | tests/ble_control.py:526-572 | an attempt succeeds exactly when the MAC is non-empty and the output shows "Connection handle" |
| BleController.FailureKindsFail | tests/ble_control.py:556-568 | refused, timed-out and unknown connect output are all plain failures |
| BleController.ExpiredConnectFails | tests/ble_control.py:205-212 | a timed-out `lecc` is a failed attempt |
| BleController.ConnectCommands | tests/ble_control.py:528-548 | an empty MAC issues no command, any other MAC issues the attempt's commands |
| BleController.ConnectDevice | tests/ble_control.py:522-574 | `True` or `None`, never `False`: `True` exactly when the MAC is non-empty and some attempt shows a handle, at the first one; the waits are the backoff waits between attempts; an empty MAC runs no command |
| BleController.ScanOutcome | tests/ble_control.py:402-506 | an attempt succeeds exactly when polling or the final vote yields a MAC |
| BleController.ScanDevice | tests/ble_control.py:398-520 | `None` exactly when no attempt within `max_retries` finds the device; otherwise the MAC of the first successful attempt; the backoff waits between the attempts made, and for each attempt the backoff waits of the `reset_adapter` it runs first (line 413) |
| BleController.ScanResets | tests/ble_control.py:413 | one `reset_adapter` per scan attempt made, in order, each with the waits its statuses give |
| BleController.ScanFilesLeftAsWritten | tests/ble_control.py:400-520 | as written, every scan file but the one named last is left on disk |
| BleController.ScanFilesLeak | tests/ble_control.py:400-520 | two attempts with their own files leave the first file behind |
| BleController.ScanFilesAfter | tests/ble_connector.py:571-584 | with per-attempt cleanup, the files left are among those there before and none is a scan file of the attempts |
| BleController.ScanFilesCleaned | tests/ble_connector.py:571-584 | with per-attempt cleanup no scan file is left behind |
| BleController.Detected | tests/ble_control.py:91-144 | a failing `hciconfig` yields no adapter; otherwise the first-running choice, or the score-based one of `test.py` |
| BleController.CtorOutcome | tests/ble_control.py:27-54 | the constructor, with the name check where the variant has it: rejected exactly for a missing, non-text or blank name; built exactly when detection and `ensure_adapter_ready` both succeed, on the detected adapter; never a missing logger |
| BleController.Create | tests/ble_control.py:27-54 | the constructor's outcome is that of the name check, detection and the readiness retry run in order |
| BleController.SecondCtorAsWritten | tests/ble_control.py:646-679 | the second class as written: its name check rejects exactly the invalid names, and whatever `hciconfig` reports a valid name ends on the missing logger |
| BleController.SecondCtorNeverBuilds | tests/ble_control.py:661 | for a valid name and any output listing a USB device, the second class as written fails on its missing logger, where the corrected constructor builds |
| BleController.ScanFor | tests/ble_control.py:587 | the scan result `run` stores in `ble_mac` |
| BleController.ConnectTo | tests/ble_control.py:593 | the connect result `run` stores in `connection_success` |
| BleController.ScanFlow | tests/ble_control.py:576-608 | the steps of `run`: acquire first, release last and only last, and a connect exactly when a MAC was found and no exception came first |
| BleController.MacFlow | tests/daq_plotter.py:454-482 | the MAC-only `run`: acquire first, release last, no scan, and a connect to the given MAC unless the acquire raised |
| BleController.ScanStage | tests/ble_control.py:587-599 | the scan and connect stage of `run` leaves the verdict and fields the flow function gives |
| BleController.ScanRunOk | tests/ble_control.py:580-604 | `run` returns `True` exactly when no exception occurs, a MAC is found and the connect returns `True` |
| BleController.PlainConnector.constructor | tests/ble_control.py:35-49 | the fields as the constructor sets them: `connection_success` false, no MAC, no lock file |
| BleController.PlainConnector.Run | tests/ble_control.py:576-608 | the verdict and fields are those of the flow; the lock file is set exactly when an acquire attempt wrote it, and the `finally` removes it when it can |
| BleController.PlainConnector.Result | tests/ble_control.py:610-616 | the report holds `connection_success`, `ble_mac` and the adapter |
| BleController.FlockConnector.constructor | tests/ble_connector.py:24-52 | the fields as the constructor sets them, no lock held |
| BleController.FlockConnector.Run | tests/ble_connector.py:641-673 | the verdict and fields of the flow, and afterwards no lock held, no fd open, `lock_file` cleared and the lock file removed after a successful acquire |
| BleController.FlockConnector.Result | tests/ble_connector.py:675-694 | the report holds `connection_success`, `ble_mac` and the adapter |
| BleController.MacConnector.constructor | tests/daq_plotter.py:38-63 | the MAC must be non-empty text that is not blank; the fields as the constructor sets them |
| BleController.MacConnector.Run | tests/daq_plotter.py:454-482 | lock, connect to the given MAC, release in `finally`: the verdict and `connection_success` of the flow, no lock held afterwards |
| BleController.MacConnector.Result | tests/daq_plotter.py:484-490 | the report's MAC is always the constructor's |
| BleSerialCycle.RunCommand | tests/all_ble_serail.py:63-84 | captured output stripped; `(None, None)` exactly for an uncaptured command that finished; fixed texts after a timeout or an exception, captured or not |
| BleSerialCycle.Captured | tests/all_ble_serail.py:63-84 | a captured command's `stdout` is never `None` |
| BleSerialCycle.TimeoutNotUp | tests/all_ble_serail.py:77-105 | a status query that timed out reads as an adapter that is down |
| BleSerialCycle.FirstUp | tests/all_ble_serail.py:89-114 | the first status showing "UP RUNNING", none before it |
| BleSerialCycle.ResetAdapter | tests/all_ble_serail.py:87-117 | `True` exactly when a status within `max_retries` shows the adapter up, after that many attempts; one 2 s sleep per failed attempt, as `ResetSleeps` counts |
| BleSerialCycle.ResetSleeps | tests/all_ble_serail.py:87-117 | a reset sleeps at most once per attempt |
| BleSerialCycle.ResetOkIff | tests/all_ble_serail.py:87-117 | a reset succeeds exactly when one of its status queries shows the adapter up |
| BleSerialCycle.FirstReady | tests/all_ble_serail.py:122-147 | the first attempt whose own status shows the adapter up, none before it |
| BleSerialCycle.EnsureAdapterReady | tests/all_ble_serail.py:120-150 | `True` exactly when some attempt's own status (before or after `up`) shows the adapter up, at the first one; one full reset per failed attempt |
| BleSerialCycle.ResetVerdictIgnored | tests/all_ble_serail.py:141-147 | a reset that brings the adapter up does not end the readiness loop: the next attempt still runs |
| BleSerialCycle.RoundMacIff | tests/all_ble_serail.py:210-258 | an attempt yields a MAC exactly when the adapter is ready, the scan is not reported invalid, the file exists and has a match; the MAC is the file's last match |
| BleSerialCycle.FirstFound | tests/all_ble_serail.py:207-273 | the first attempt that yields a MAC, none before it |
| BleSerialCycle.SleepCount | tests/all_ble_serail.py:209-270 | the number of 2 s sleeps is at most the number of attempts |
| BleSerialCycle.ScanDevice | tests/all_ble_serail.py:207-273 | a MAC exactly when an attempt within `max_retries` finds one, that attempt's last match; only attempts that read a file without a match sleep; the sleeps of the resets the attempts run are counted too |
| BleSerialCycle.ResetSleepBound | tests/all_ble_serail.py:216-230 | the two resets of a scan attempt sleep at most six times |
| BleSerialCycle.ScanAttempt | tests/all_ble_serail.py:207-273 | one attempt yields that round's MAC, adds a sleep exactly when it read a file without a match, and adds its resets' sleeps |
| BleSerialCycle.ScanRoundStep | tests/all_ble_serail.py:210-267 | one scan attempt yields what the attempt function says, whatever its resets report; it runs a reset once the adapter is ready and a second one on an invalid device, and their sleeps are those `RoundResetSleeps` gives |
| BleSerialCycle.FirstReadyRound | tests/all_ble_serail.py:282-312 | the first connect attempt whose adapter is ready, none before it |
| BleSerialCycle.ConnectDevice | tests/all_ble_serail.py:276-315 | `(None, None)` at once for an empty MAC; otherwise the `lecc` output of the first attempt whose adapter is ready, or `(None, None)` when none is |
| BleSerialCycle.FirstFailed | tests/all_ble_serail.py:350-363 | the first write that raises, none before it |
| BleSerialCycle.SendCommands | tests/all_ble_serail.py:343-368 | `False` without writing on a closed port; otherwise the commands are written in order up to the first failing write, and `True` exactly when all went out |
| BleSerialCycle.WaitForMessage | tests/all_ble_serail.py:371-410 | `True` exactly when some poll reads data after which the buffer holds the pattern, at the first such poll |
| BleSerialCycle.BufferStep | tests/all_ble_serail.py:386-393 | after one more poll the buffer is the old buffer followed by what that poll read |
| BleSerialCycle.BufferAppend | tests/all_ble_serail.py:386-393 | the buffer of two runs of polls is the concatenation of their buffers |
| BleSerialCycle.LastRead | tests/all_ble_serail.py:386-393 | a non-empty buffer was last extended by some read, after which it did not change |
| BleSerialCycle.HitInBuffer | tests/all_ble_serail.py:386-398 | a match at some poll is a match in everything read |
| BleSerialCycle.BufferHit | tests/all_ble_serail.py:386-398 | a non-empty pattern in everything read is found at some poll |
| BleSerialCycle.HeardIff | tests/all_ble_serail.py:371-410 | the wait returns `True` exactly when the port is open and the pattern occurs in everything read, across read boundaries too |
| BleSerialCycle.FlagAcrossReads | tests/all_ble_serail.py:393-398 | a flag split over two reads is found |
| BleSerialCycle.FirstSlept | tests/all_ble_serail.py:415-428 | the first attempt whose commands went out and whose flag was heard, none before it |
| BleSerialCycle.PutDeviceToSleep | tests/all_ble_serail.py:413-431 | `True` exactly when some attempt within `max_retries` delivers the commands and hears the sleep flag, after that many attempts; the 2 s sleeps are those of the attempts made that delivered the commands without hearing the flag |
| BleSerialCycle.SleepAttempt | tests/all_ble_serail.py:414-426 | one sleep attempt hears the flag exactly when the commands all go out and the flag arrives, and adds a sleep exactly when the commands go out without the flag |
| BleSerialCycle.RetrySleeps | tests/all_ble_serail.py:418-426 | no more sleeps than attempts |
| BleSerialCycle.ClosedPortNeverSleeps | tests/all_ble_serail.py:418-419 | on a closed port every send fails, and a failed send skips the sleep |
| BleSerialCycle.FirstWoke | tests/all_ble_serail.py:436-445 | the first wait that hears the wake-up flag, none before it |
| BleSerialCycle.VerifyDeviceWakeup | tests/all_ble_serail.py:434-448 | `True` exactly when some wait within `max_retries` hears the wake-up flag, after that many attempts |
| BleSerialCycle.ClosedPortNeverWakes | tests/all_ble_serail.py:373-375 | nothing is heard from a port that is not open |
| BleSerialCycle.CycleEndOf | tests/all_ble_serail.py:452-536 | a cycle ends at the adapter check exactly when it is not ready; a cycle that wakes heard the flag |
| BleSerialCycle.CycleSuccessIff | tests/all_ble_serail.py:452-536 | a cycle succeeds exactly when the adapter is ready, the scan finds the device, the port opens, sleep is confirmed and the wake-up flag is heard; the connect output plays no part |
| BleSerialCycle.RunFullTestCycle | tests/all_ble_serail.py:452-536 | the cycle's end and verdict; no lock is taken when the adapter is down; the lock file is set exactly when an acquire wrote it and is removed at the end when it can be; the port is closed exactly when it was opened |
| BleSerialCycle.Successes | tests/all_ble_serail.py:563-566 | the number of successful cycles is at most the number of cycles |
| BleSerialCycle.AllSucceededIff | tests/all_ble_serail.py:578-583 | the tally equals the number of cycles exactly when every cycle succeeded |
| BleSerialCycle.RunCycles | tests/all_ble_serail.py:563-583 | the tally of successes, one delay between consecutive cycles, exit code 0 exactly when every cycle succeeded and 1 otherwise |
| BleWakeup.RunCommand | tests/only_ble_wakeup.py:9-33 | a command that exited reports its code, raising or not, with stripped output exactly when captured; a timeout reports -1 and any other error -2, both without output |
| BleWakeup.CheckHci | tests/only_ble_wakeup.py:60-90 | a failing probe is a failure with nothing else run; `up` is issued exactly when the first status is empty; the reset runs exactly when `up` fails or the second status is empty, and then decides the result |
| BleWakeup.FirstScanHit | tests/only_ble_wakeup.py:146-199 | the first scan attempt whose file has a match, none before it |
| BleWakeup.ScanLoop | tests/only_ble_wakeup.py:142-199 | a MAC exactly when a scan within `retry_limit` finds one, after that many attempts, and it is that file's last match |
| BleWakeup.StepOf | tests/only_ble_wakeup.py:216-261 | an attempt connects exactly when `lecc` exits 0 and mentions "handle", case-insensitively; it abandons the loop only after a failed `lecc` whose reset also fails |
| BleWakeup.InvalidDeviceFromText | tests/only_ble_wakeup.py:240-242 | the error message says "invalid device" exactly when the stderr or stdout text it carries does |
| BleWakeup.FirstStop | tests/only_ble_wakeup.py:216-261 | the first attempt that connects or abandons, none before it |
| BleWakeup.ConnectLoop | tests/only_ble_wakeup.py:213-261 | the connection is made exactly as the attempts say; the attempts run up to the first that stops; one periodic reset per two attempts |
| BleWakeup.TwoPeriodicResets | tests/only_ble_wakeup.py:214-259 | five attempts that neither connect nor abandon give no connection |
| BleWakeup.WakeEndOf | tests/only_ble_wakeup.py:93-275 | a connected run passed the adapter check, wrote the lock file and connected |
| BleWakeup.BleConnect | tests/only_ble_wakeup.py:93-275 | the run's end and verdict; the lock is untouched when the adapter is down; after a scan it is removed when it can be; the MAC is reported exactly when one was found, and it is the first hit's last match |
| BleWakeup.ConnectWithRetries | tests/only_ble_wakeup.py:286-300 | exit code 0 exactly when one of the three calls connects, after the first successful call; a 30 s wait after every failed call |
| ClassicBt.RunCommandShape | tests/bt_reconnect_linux.py:56-127 | a command that ran reports its triple; a timeout or exception reports empty stdout, code -1 and the timeout or exception text |
| ClassicBt.FailedCommandSilent | tests/bt_reconnect_linux.py:119-124 | a failed command's stdout contains no keyword |
| ClassicBt.FirstNamedSpec | tests/bt_reconnect_linux.py:174-179 | the first scanned pair whose name contains the target, case-insensitively, none before it |
| ClassicBt.ScanMacIff | tests/bt_reconnect_linux.py:147-183 | a MAC exactly when the scan succeeds and a pair of the whole output names the target; it is the first such pair's MAC, 17 characters long |
| ClassicBt.ScanMacOf | tests/bt_reconnect_linux.py:147-183 | a scan yields a MAC only when its command succeeded, and the MAC has 17 characters |
| ClassicBt.NameOnNextLineFound | tests/bt_reconnect_linux.py:147-183 | the output "AA:BB:CC:DD:EE:FF\nMyPhone\n" finds the target "MyPhone" at that MAC |
| ClassicBt.ScanVerdicts | tests/bt_reconnect_linux.py:147-183 | one verdict per scan |
| ClassicBt.ScanVerdictAt | tests/bt_reconnect_linux.py:147-183 | a scan's verdict is whether it yields a MAC |
| ClassicBt.PairKeywordsRedundant | tests/bt_reconnect_linux.py:205-206 | the third pairing keyword adds nothing: success is "pairing successful" or "already paired" |
| ClassicBt.ConnectRan | tests/bt_reconnect_linux.py:185-250 | at most three bluetoothctl commands, none exactly when there is no MAC |
| ClassicBt.ConnectVerdicts | tests/bt_reconnect_linux.py:185-250 | one connect verdict per try |
| ClassicBt.ToggleVerdicts | tests/bt_reconnect_linux.py:252-270 | one toggle verdict per try |
| ClassicBt.CheckVerdicts | tests/bt_reconnect_linux.py:272-297 | one reconnect verdict per try |
| ClassicBt.ScannedMac | tests/bt_reconnect_linux.py:308-309 | a MAC exactly when some scan within `max_retry` succeeds |
| ClassicBt.TestEndOf | tests/bt_reconnect_linux.py:299-344 | the test passes exactly when scan, connect, down, up (each within `max_retry`) and the reconnect check (within 2) all succeed |
| ClassicBt.Tester.constructor | tests/bt_reconnect_linux.py:17-28 | the target, adapter and retry limit as given, no MAC yet |
| ClassicBt.Tester.ScanTargetDevice | tests/bt_reconnect_linux.py:147-183 | success exactly when the scan yields a MAC, which is then stored; otherwise `target_mac` is unchanged |
| ClassicBt.Tester.RetryScan | tests/bt_reconnect_linux.py:129-145 | success exactly when a scan within `max_retry` succeeds, at the first; the waits are 2, 4, 8, ... between attempts |
| ClassicBt.Tester.ScanStep | tests/bt_reconnect_linux.py:129-183 | one attempt: its wait `2 ** attempt` (none before the first), then a scan whose MAC is stored exactly when it finds the target |
| ClassicBt.Tester.ConnectTargetDevice | tests/bt_reconnect_linux.py:185-250 | the verdict and number of commands the connect try gives for the stored MAC |
| ClassicBt.Tester.RunFullTest | tests/bt_reconnect_linux.py:299-344 | the test's end and verdict; the scanned MAC is stored unless the scan failed; a disconnect is sent exactly when the stored MAC is truthy |
| SerialSleepTest.AnyWakeOnlyAppend | tests/device_sleep_from_serail.py:119-124 | a line raising the wake event is in two line lists exactly when it is in one of them |
| SerialSleepTest.BothFlagsMeanSleep | tests/device_sleep_from_serail.py:119-124 | a line with both flags raises the sleep event and not the wake event |
| SerialSleepTest.SerialMonitor.constructor | tests/device_sleep_from_serail.py:38-46 | port as given, closed, not running, no events, empty buffer |
| SerialSleepTest.SerialMonitor.Start | tests/device_sleep_from_serail.py:48-88 | success exactly when the port opens; then it runs with the events cleared and an empty buffer; otherwise nothing changes |
| SerialSleepTest.SerialMonitor.ProcessLine | tests/device_sleep_from_serail.py:116-124 | the line is logged; it raises the sleep event when it has the sleep flag and the wake event only when it has the wake flag without the sleep flag |
| SerialSleepTest.SerialMonitor.ProcessLines | tests/device_sleep_from_serail.py:111-124 | every line logged in order; each event raised when some line raises it |
| SerialSleepTest.SerialMonitor.Receive | tests/device_sleep_from_serail.py:105-127 | one read frames exactly the buffer's next complete lines, keeps the leftover, and handles each line |
| SerialSleepTest.SerialMonitor.ReadSerial | tests/device_sleep_from_serail.py:99-127 | a run of reads frames exactly the lines of buffer plus everything read, keeps the leftover without '\n', and handles each line |
| SerialSleepTest.SerialMonitor.Stop | tests/device_sleep_from_serail.py:90-138 | stopped and closed; when it was running, a non-blank leftover is handled as one last line |
| SerialSleepTest.SerialMonitor.ResetEvents | tests/device_sleep_from_serail.py:150-154 | both events cleared and nothing else changed |
| SerialSleepTest.SerialMonitor.WaitForSleep | tests/device_sleep_from_serail.py:140-143 | true exactly when the sleep event was set or a line read during the wait raises it |
| SerialSleepTest.SerialMonitor.WaitForWakeup | tests/device_sleep_from_serail.py:145-148 | true exactly when the wake event was set or a line read during the wait raises it |
| SerialSleepTest.SerialMonitor.SendSleepCommand | tests/device_sleep_from_serail.py:189-211 | true exactly when both commands are written and the sleep flag arrives afterwards; a failed write stops after the commands written so far, with nothing read and both events cleared; otherwise the lines of the wait are logged and raise the events |
| SerialSleepTest.SerialMonitor.RunSingleTest | tests/device_sleep_from_serail.py:226-263 | corrected: with the connector built as intended, the verdict is `RunVerdict` of the buffer before the run and the trial; the new buffer, the log, both events and the commands written are those of the run from that buffer: nothing heard after a failed write, and the wake wait only once the device sleeps |
| SerialSleepTest.RunVerdictIff | tests/device_sleep_from_serail.py:189-263 | a run succeeds exactly when both commands are written, the sleep flag is heard during the sleep wait, and a wake-only line arrives during either wait |
| SerialSleepTest.BleResultIgnored | tests/device_sleep_from_serail.py:246-253 | the BLE result changes neither the verdict nor the buffer left behind |
| SerialSleepTest.CountTruePositive | tests/device_sleep_from_serail.py:279-304 | the success count is at most the number of runs, and positive exactly when some run succeeded |
| SerialSleepTest.RunTests | tests/device_sleep_from_serail.py:266-313 | corrected: with the connector built as intended, a monitor that does not start gives failure with nothing run; otherwise the success count is the number of successful verdicts of the runs in order from the empty buffer, every run is counted once, the monitor is stopped, and the result is whether any run succeeded |
| SerialSleepTest.HciKeywordCrashes | tests/device_sleep_from_serail.py:239-242 | the constructor rejects the `hci_device` keyword, so the first run whose device sleeps ends the script with `TypeError`, and a script in which no device sleeps fails |
| SerialTerminal.TextPayload | tests/serail_tool.py:305 | one character per byte |
| SerialTerminal.Line | tests/serail_tool.py:294-308 | the head, the payload and a line break |
| SerialTerminal.FormatReceived | tests/serail_tool.py:292-308 | the optional stamp and the receive arrow, the payload in the chosen mode, and a line break |
| SerialTerminal.ReceivedPayload | tests/serail_tool.py:292-308 | the payload sits between the head and the final line break |
| SerialTerminal.HexLineReadsBack | tests/serail_tool.py:299-302 | the payload of a hex-mode line parses back to the received bytes |
| SerialTerminal.TextLinePrintable | tests/serail_tool.py:303-306 | text mode shows one printable character per byte, '.' exactly for non-printable bytes and for '.' itself |
| SerialTerminal.EchoShown | tests/serail_tool.py:305 | printable ASCII text sent in text mode is shown unchanged when echoed back |
| SerialTerminal.NonAsciiDotted | tests/serail_tool.py:305 | a non-ASCII character echoed back is shown as one '.' per UTF-8 byte |
| SerialTerminal.Added | tests/serail_tool.py:348-355 | the history grows by at most one, contains a non-empty entry, and gains nothing else |
| SerialTerminal.AddedOk | tests/serail_tool.py:348-355 | the history stays without duplicates or empty entries and within 20 entries |
| SerialTerminal.AddedNewest | tests/serail_tool.py:350-355 | a new entry goes first and, when the history was full, the oldest is dropped |
| SerialTerminal.AddedIdempotent | tests/serail_tool.py:350 | adding the same entry twice is adding it once |
| SerialTerminal.PrevIndex | tests/serail_tool.py:357-367 | the cursor stays within -1 and the last entry |
| SerialTerminal.NextIndex | tests/serail_tool.py:369-382 | the cursor stays within -1 and the last entry |
| SerialTerminal.BrowseRoundTrip | tests/serail_tool.py:357-382 | short of the oldest entry, up then down returns to the same entry |
| SerialTerminal.PrevWalk | tests/serail_tool.py:362-363 | pressing up `k` times moves `k` entries back, stopping at the oldest |
| SerialTerminal.Prepare | tests/serail_tool.py:474-516 | hex mode gives at most one byte per two digits; text mode always gives a frame |
| SerialTerminal.ClosesOnTimeout | tests/serail_tool.py:455-457 | a write timeout always closes the port; another error closes it only when its text mentions a timeout |
| SerialTerminal.SentIff | tests/serail_tool.py:462-555 | a frame is sent exactly when the port is open, the entry is not empty, it prepares to a frame and the write succeeds; the frame sent is the prepared one |
| SerialTerminal.HexResend | tests/serail_tool.py:476-493 | the displayed hex of some bytes, spaced or not, sent again in hex mode is those bytes |
| SerialTerminal.OddDigitsRejected | tests/serail_tool.py:476-480 | an odd number of hex digits is refused |
| SerialTerminal.BadCharRejected | tests/serail_tool.py:481-512 | a character that is not a hex digit is refused |
| SerialTerminal.TextFrame | tests/serail_tool.py:516 | text mode sends the entry's UTF-8 bytes followed by CR LF |
| SerialTerminal.Pushed | tests/serail_tool.py:272-281 | the queue keeps at most 1000 entries and ends with the item pushed |
| SerialTerminal.Newest | tests/serail_tool.py:272-281 | at most the 1000 newest items |
| SerialTerminal.PushedAllNewest | tests/serail_tool.py:272-281 | pushing items one by one leaves exactly the 1000 newest of all |
| SerialTerminal.ErrorsAlwaysShown | tests/serail_tool.py:323-343 | with the receive display off, exactly the error texts are shown, in order |
| SerialTerminal.ShownAppend | tests/serail_tool.py:323-343 | what two batches show is what each shows, in order |
| SerialTerminal.Shown | tests/serail_tool.py:323-343 | corrected: at most one display line per item of the batch, read errors shown as text |
| SerialTerminal.FedChunks | tests/serail_tool.py:251-286 | reads without a failure queue exactly their chunks, newest 1000 kept |
| SerialTerminal.Fed | tests/serail_tool.py:251-290 | corrected: with read errors queued as text, the queue never grows past its `maxsize` of 1000 |
| SerialTerminal.ShownAsWritten | tests/serail_tool.py:323-343 | with the receive display off, the batch as written shows nothing |
| SerialTerminal.ReadErrorMisrendered | tests/serail_tool.py:287-329 | as written a read error is hidden when the receive display is off and otherwise shown as received data |
| SerialTerminal.Terminal.constructor | tests/serail_tool.py:13-53 | the display options as given; empty history, no cursor, closed port, nothing written, shown or queued |
| SerialTerminal.Terminal.AddToSendHistory | tests/serail_tool.py:348-355 | only the history changes, to the entry added |
| SerialTerminal.Terminal.PrevHistory | tests/serail_tool.py:357-367 | the cursor moves one entry back when it can, and the entry box shows that entry; nothing else changes |
| SerialTerminal.Terminal.NextHistory | tests/serail_tool.py:369-382 | the cursor moves one entry forward, the box showing that entry, or to -1 with the box cleared; nothing else changes |
| SerialTerminal.Terminal.CloseSerial | tests/serail_tool.py:230-249 | the port is closed and the disconnect message shown; nothing else changes |
| SerialTerminal.Terminal.SendData | tests/serail_tool.py:462-555 | the end is that of the entry, mode and write; a sent frame is written, the entry added to the history and the cursor reset; a timeout closes the port; the matching messages are shown |
| SerialTerminal.Terminal.Transmit | tests/serail_tool.py:444-460 | a successful write records the frame, history and cursor; a failure shows its message and closes the port on a timeout |
| SerialTerminal.Terminal.Enqueue | tests/serail_tool.py:272-281 | only the queue changes: the item is pushed, dropping the oldest when full |
| SerialTerminal.Terminal.ReadPass | tests/serail_tool.py:255-284 | a pass that read something queues it together with what arrived within 50 ms; the buffer is empty again |
| SerialTerminal.Terminal.ReadSerial | tests/serail_tool.py:251-290 | corrected: with read errors queued as text, the queue after the reads is that of feeding them one by one; nothing else changes |
| SerialTerminal.Terminal.DrainQueue | tests/serail_tool.py:315-321 | the whole queue is taken, in order, and left empty |
| SerialTerminal.Terminal.UpdateUi | tests/serail_tool.py:310-346 | corrected: the whole queue is taken and the lines it shows are added to the display, read errors always among them |
| SerialTerminal.Terminal.ShowItem | tests/serail_tool.py:310-346 | corrected: one queued item, a received chunk or a text read error, adds its display lines and leaves every other field as it was |
| SerialTest.Upper | tests/serial_test_tool.py:577-584 | `upper()` keeps the length and maps every character |
| SerialTest.HexStringToBytes | tests/serial_test_tool.py:557-569 | `None` exactly when an odd number of hex digits remains after removing everything else; otherwise one byte per two digits |
| SerialTest.BytesToHex | tests/serial_test_tool.py:571-573 | three characters per byte, less one |
| SerialTest.SpacedHexLength | tests/serial_test_tool.py:573 | the blank-separated form takes three characters per byte, less one |
| SerialTest.NormalizeHex | tests/serial_test_tool.py:575-577 | only upper-case hex digits remain |
| SerialTest.FilterAppend | tests/serial_test_tool.py:560-577 | removing characters distributes over concatenation |
| SerialTest.HexOnlySpaces | tests/serial_test_tool.py:560 | whitespace has no hex digits |
| SerialTest.HexOnly | tests/serial_test_tool.py:560 | only hex digits are left, never more characters than came in |
| SerialTest.HexOnlyUpper | tests/serial_test_tool.py:577 | removing non-hex characters and `upper()` commute |
| SerialTest.UpperAppend | tests/serial_test_tool.py:577 | `upper()` distributes over concatenation |
| SerialTest.UpperIdempotent | tests/serial_test_tool.py:584 | `upper()` twice is `upper()` once |
| SerialTest.HexOnlyCollapse | tests/serial_test_tool.py:586 | collapsing whitespace keeps the hex digits |
| SerialTest.HexOnlyStrip | tests/serial_test_tool.py:273 | strip keeps the hex digits |
| SerialTest.HexOnlyAround | tests/serial_test_tool.py:586 | whitespace around a text adds no hex digits |
| SerialTest.HexOnlyAfterSpacedFilter | tests/serial_test_tool.py:582 | the filter keeping whitespace keeps the hex digits |
| SerialTest.NormalizeAfterSpaced | tests/serial_test_tool.py:281-282 | normalizing an imported case's text gives the same result as normalizing the raw cell |
| SerialTest.NormalizeHexIdempotent | tests/serial_test_tool.py:575-577 | normalizing twice is normalizing once |
| SerialTest.NormalizeReceived | tests/serial_test_tool.py:434-439 | the normalized display of received bytes is their hex digits without separator |
| SerialTest.HexOnlySpacedHex | tests/serial_test_tool.py:573 | the hex digits of the spaced form are the compact form |
| SerialTest.BytesRoundTrip | tests/serial_test_tool.py:557-573 | converting bytes to hex text and back gives the bytes |
| SerialTest.VerdictMeaning | tests/serial_test_tool.py:438-445 | PASS exactly when the expected text's normalized digits are the received bytes' hex |
| SerialTest.CollapseNormal | tests/serial_test_tool.py:586 | text with only single blanks as whitespace is unchanged by collapsing |
| SerialTest.CollapseShape | tests/serial_test_tool.py:582-586 | after collapsing, only hex digits and single blanks remain |
| SerialTest.StripShape | tests/serial_test_tool.py:586 | stripping such text leaves it in normal spaced form |
| SerialTest.SliceShape | tests/serial_test_tool.py:586 | a slice of such text with no blank at its ends is in normal spaced form |
| SerialTest.NormalizeSpacedShape | tests/serial_test_tool.py:579-587 | the result is upper-case hex digits separated by single blanks, with none at the ends |
| SerialTest.NormalSpacedFixed | tests/serial_test_tool.py:579-587 | text already in that form is unchanged |
| SerialTest.NormalizeSpacedIdempotent | tests/serial_test_tool.py:579-587 | normalizing with spaces twice is normalizing once |
| SerialTest.RowData | tests/serial_test_tool.py:272-282 | a kept row has non-empty send and expected texts in the normalised shape |
| SerialTest.Imported | tests/serial_test_tool.py:256-300 | at most one case per row |
| SerialTest.ImportedNumbered | tests/serial_test_tool.py:283-291 | the imported cases are numbered 1, 2, ... in order whatever rows were skipped, and all pending |
| SerialTest.BlankRowSkipped | tests/serial_test_tool.py:277-278 | a row with a blank cell adds no case |
| SerialTest.RunCase | tests/serial_test_tool.py:411-453 | a buffer reset that raises is an execution error whatever the send text; otherwise a send text that does not parse is a format error; otherwise an exchange that raises is an execution error, and PASS or FAILURE holds exactly as the reply matches, with the received hex recorded |
| SerialTest.ResetBeforeFormat | tests/serial_test_tool.py:411-420 | with a malformed send text, a raising reset gives the execution error and a working one the format error |
| SerialTest.CountPass | tests/serial_test_tool.py:443 | no more passes than cases |
| SerialTest.StopPoint | tests/serial_test_tool.py:403-405 | corrected: the first case at which the stop flag is seen, none before it |
| SerialTest.StopFlagsAsWritten | tests/serial_test_tool.py:33 | as written, the flag is false before every case |
| SerialTest.StopNeverSeen | tests/serial_test_tool.py:392-405 | as written, no batch stops before its last case |
| SerialTest.SerialTester.constructor | tests/serial_test_tool.py:20-44 | no test cases |
| SerialTest.SerialTester.ImportTestCases | tests/serial_test_tool.py:240-314 | the case list is replaced by the cases imported from the rows |
| SerialTest.SerialTester.DoBatchTest | tests/serial_test_tool.py:399-460 | corrected: the cases before the stop are run in order, each through its exchange with the port (reset first), and the rest left as they were; the count is the passes among the cases run |
| SerialTest.PassPrefix | tests/serial_test_tool.py:441-448 | updating a case adds one pass exactly when its status is PASS |
| SleepManager.Written | tests/device_sleep_manager.py:129-137 | the commands written are a prefix of the list, all of it exactly when every write is accepted |
| SleepManager.WaitedSnoc | tests/device_sleep_manager.py:148-157 | one more attempt adds its wait's reads and its writes |
| SleepManager.WaitedAppend | tests/device_sleep_manager.py:148-157 | the reads of two runs of attempts are those of each, in order |
| SleepManager.SleepPersists | tests/device_sleep_manager.py:118-155 | a sleep flag heard during the first attempts stays heard after more |
| SleepManager.AttemptStep | tests/device_sleep_manager.py:148-157 | one more attempt adds exactly the lines framed from the buffer and its reads, and its writes |
| SleepManager.DeviceSleepManager.constructor | tests/device_sleep_manager.py:11-19 | the configuration as given; closed, not reading, no events, nothing logged or written |
| SleepManager.DeviceSleepManager.OpenSerialPort | tests/device_sleep_manager.py:43-55 | success exactly when the port opens; nothing else changes |
| SleepManager.DeviceSleepManager.CloseSerialPort | tests/device_sleep_manager.py:57-61 | the port is closed; nothing else changes |
| SleepManager.DeviceSleepManager.StartReading | tests/device_sleep_manager.py:63-74 | reading starts, with an empty buffer, exactly when the port is open |
| SleepManager.DeviceSleepManager.ProcessLine | tests/device_sleep_manager.py:112-125 | the line is queued; each event is raised when the line has its flag, and stays raised |
| SleepManager.DeviceSleepManager.ProcessLines | tests/device_sleep_manager.py:96-125 | every line queued in order; each event raised when some line has its flag |
| SleepManager.DeviceSleepManager.Receive | tests/device_sleep_manager.py:88-100 | one read frames exactly the buffer's next complete lines and handles each |
| SleepManager.DeviceSleepManager.ReadSerialData | tests/device_sleep_manager.py:84-106 | a run of reads frames exactly the lines of buffer plus everything read, keeps the leftover, and handles each line |
| SleepManager.DeviceSleepManager.StopReading | tests/device_sleep_manager.py:76-110 | reading stops; when it was running, a non-blank leftover is handled as one last line |
| SleepManager.DeviceSleepManager.SendSleepCommands | tests/device_sleep_manager.py:127-137 | true exactly when every command is written; the commands up to the first failed write are written |
| SleepManager.DeviceSleepManager.TryOnce | tests/device_sleep_manager.py:149-157 | one attempt writes the commands it can and, when all went out, waits for reads and handles their lines |
| SleepManager.DeviceSleepManager.Attempts | tests/device_sleep_manager.py:148-162 | success exactly when the sleep flag is heard within `max_retries` attempts, at the first attempt that hears it; all writes and reads of the attempts made are accounted for |
| SleepManager.DeviceSleepManager.EnsureDeviceSleep | tests/device_sleep_manager.py:139-162 | true at once, with nothing written, when sleep was already detected; otherwise true exactly when an attempt within `max_retries` hears the flag |
| SleepManager.DeviceSleepManager.WaitForWakeup | tests/device_sleep_manager.py:164-174 | true at once when the wake event is set; otherwise true exactly when a line read during the wait has the wake flag |
| SleepManager.DeviceSleepManager.ResetState | tests/device_sleep_manager.py:176-186 | both events cleared and the log queue emptied; nothing else changes |
| Telnet.Reply | tests/uut_sleep_monitor.py:38-46 | every reply starts with IAC |
| Telnet.ScanShape | tests/uut_sleep_monitor.py:33-59 | every reply sent refuses an option or is a bare IAC; the data kept is the rest of the chunk from its first printable byte |
| Telnet.Scan | tests/uut_sleep_monitor.py:33-59 | every reply sent refuses an option or is a lone IAC, and the data kept starts with a printable byte |
| Telnet.ScanShift | tests/uut_sleep_monitor.py:33-59 | scanning from an offset does not depend on the bytes before it |
| Telnet.CommandAnswered | tests/uut_sleep_monitor.py:35-51 | a complete IAC command is answered once and skipped |
| Telnet.RefusesOptions | tests/uut_sleep_monitor.py:38-49 | DO is answered WONT and WILL is answered DONT for the same option; any other command gets a bare IAC |
| Telnet.DanglingIac | tests/uut_sleep_monitor.py:35-59 | an IAC too close to the end is skipped as a byte; a printable byte after it starts the data |
| Telnet.PrintableFirst | tests/uut_sleep_monitor.py:52-56 | a chunk that starts with a printable byte is all data, with no replies |
| Telnet.ScanChunk | tests/uut_sleep_monitor.py:33-59 | the replies and leftover data of one chunk |
| Telnet.Negotiation | tests/uut_sleep_monitor.py:19-73 | never more `recv` results used than given |
| Telnet.Negotiate | tests/uut_sleep_monitor.py:19-73 | the data left over, the replies sent and the `recv` calls made by the negotiation |
| Telnet.NegotiationShape | tests/uut_sleep_monitor.py:19-73 | every reply refuses an option or is a bare IAC; left-over data starts with a printable byte and is the tail of the last chunk read |
| Telnet.QuietEndsEmpty | tests/uut_sleep_monitor.py:29-69 | a timeout, an error or a closed peer on the first `recv` ends the negotiation with no data |
| Telnet.RecvAll | tests/uut_sleep_monitor.py:87-103 | never more `recv` results used than given |
| Telnet.SafeRecv | tests/uut_sleep_monitor.py:87-103 | the bytes `safe_recv` collects and the calls it makes |
| Telnet.RecvAllChunks | tests/uut_sleep_monitor.py:92-98 | non-empty chunks followed by a stop are collected whole, and one more call is used |
| Telnet.ReadBurst | tests/uut_console_monitor.py:188-203 | the bytes the five-read loop collects after a command |
| Telnet.NonEmpty | tests/uut_console_monitor.py:192-198 | the reads without the empty ones |
| Telnet.BurstIsRecvAll | tests/uut_console_monitor.py:188-203 | the five-read loop collects what `safe_recv` would over the first five reads with the empty ones dropped |
| UutMonitor.SafeSend | tests/uut_sleep_monitor.py:75-85 | true exactly when the send went through |
| UutMonitor.DeviceStatus | tests/uut_sleep_monitor.py:105-158 | connected exactly when the probe went out; running only when connected with a reply |
| UutMonitor.IndicatorsStartVisible | tests/uut_sleep_monitor.py:131-142 | every indicator starts with a visible character |
| UutMonitor.NoVisibleIn | tests/uut_sleep_monitor.py:126 | white space holds nothing that starts visibly |
| UutMonitor.BlankShowsNothing | tests/uut_sleep_monitor.py:126-128 | a blank reply shows no indicator |
| UutMonitor.RunningIff | tests/uut_sleep_monitor.py:105-158 | running exactly when the probe went out and the decoded reply holds an indicator |
| UutMonitor.IndicatorShowsRunning | tests/uut_sleep_monitor.py:144-147 | a reply holding any indicator means connected and running |
| UutMonitor.CheckDeviceStatus | tests/uut_sleep_monitor.py:105-158 | the status of the probe and the reply `safe_recv` collects; no read when the probe fails |
| UutMonitor.ProceedNeedsY | tests/uut_sleep_monitor.py:218-224 | going on needs a 'y' in the answer |
| UutMonitor.ProceedWord | tests/uut_sleep_monitor.py:219-224 | an answer without white space around it goes on exactly when its lower-cased text is "y" or "yes" |
| UutMonitor.ProceedExamples | tests/uut_sleep_monitor.py:219-224 | "Yes" goes on; "ye" and no input stop |
| UutMonitor.SentBefore | tests/uut_sleep_monitor.py:264-273 | the commands up to the first failed send |
| UutMonitor.SendSleepCommands | tests/uut_sleep_monitor.py:264-273 | the frames of the commands sent, in order, up to the first failed send |
| UutMonitor.FirstFailure | tests/uut_sleep_monitor.py:270-273 | the first failed send stops the loop |
| UutMonitor.AllSent | tests/uut_sleep_monitor.py:264-276 | with no failed send every command goes out |
| UutMonitor.SessionIff | tests/uut_sleep_monitor.py:195-230 | the commands are sent exactly when the link is up and the device runs or the user goes on; a running device is not asked |
| UutMonitor.ContainsPrefixOf | tests/uut_console_monitor.py:250 | text holding a marker holds its prefixes |
| UutMonitor.AlertOrder | tests/uut_console_monitor.py:250-257 | the WiFi marker wins over the BLE one; the BLE alert means no WiFi marker; a console WiFi alert, and any chunk with the WiFi marker, is a sleep-monitor alert too |
| UutMonitor.WatchLog | tests/uut_console_monitor.py:241-263 | at most one alert per poll |
| UutMonitor.Watch | tests/uut_console_monitor.py:235-268 | the logged text and alerts of the watch loop for its polls |
| UutMonitor.WifiChunkAlerts | tests/uut_console_monitor.py:250-253 | a chunk holding the WiFi marker alerts WiFi first |
| UutMonitor.TooShort | tests/uut_console_monitor.py:250 | text shorter than a marker does not hold it |
| UutMonitor.QuietChunks | tests/uut_console_monitor.py:243-257 | chunks with no marker are logged in order and give no alert |
| UutMonitor.HeadQuiet | tests/uut_console_monitor.py:250-257 | a proper prefix of the WiFi marker alerts nothing |
| UutMonitor.TailQuiet | tests/uut_console_monitor.py:250-257 | a proper suffix of the WiFi marker alerts nothing |
| UutMonitor.SplitMarkerMissed | tests/uut_console_monitor.py:243-257 | a WiFi marker split across two reads is logged but never alerted |
| Utf8.EncodeChar | tests/hex_ascii_chang.py:135 | one to four bytes per character, one exactly for ASCII and then its code; longer sequences have every byte at 0x80 or above |
| Utf8.Encode | tests/serail_tool.py:516 | at least one byte per character |
| Utf8.EncodeAppend | tests/serail_tool.py:516 | encoding distributes over concatenation |
| Utf8.EncodeAscii | tests/hex_ascii_chang.py:135 | ASCII text encodes to its codes, one byte each |
| Utf8.SeqLen | tests/uut_sleep_monitor.py:123 | a valid sequence's length is at most four and within the input |
| Utf8.Decode | tests/uut_sleep_monitor.py:123 | at most one character per byte (invalid bytes are dropped) |
| Utf8.EncodeCharDecodes | tests/uut_sleep_monitor.py:123 | the encoding of a character is one valid sequence decoding to it |
| Utf8.DecodeStep | tests/uut_sleep_monitor.py:123 | decoding reads one sequence and goes on after it |
| Utf8.DecodeEncodedChar | tests/uut_sleep_monitor.py:123 | a character encoded in front decodes first |
| Utf8.DecodeAppendEncoded | tests/uut_sleep_monitor.py:123 | encoded text in front decodes to itself, whatever follows |
| Utf8.DecodeEncode | tests/uut_sleep_monitor.py:123 | decoding the encoding of any text gives the text back |
| Wol.MacBytesLength | tests/wifi_wake_linux.py:70 | a MAC that is read gives at most one byte per two characters |
| Wol.MacBytes | tests/wifi_wake_linux.py:70 | a MAC that is read gives at most one byte per two of its characters |
| Wol.MagicPacket | tests/wifi_wake_linux.py:74 | the packet is 6 + 16 times the MAC's length |
| Wol.PacketLayout | tests/wifi_wake_linux.py:74 | six 0xFF bytes, then copy `k` of the MAC at offset `6 + k * |mac|` |
| Wol.UncolonHex | tests/wifi_wake_linux.py:70 | removing the colons of the usual MAC text leaves its bare hex digits |
| Wol.MacRoundTrip | tests/wifi_wake_linux.py:70-74 | the usual MAC text of any bytes reads back as those bytes; six bytes give a 102-byte packet |
| Wol.MacRejects | tests/wifi_wake_linux.py:70 | a character other than a hex digit, a colon or white space makes the MAC a `ValueError` |
| Wol.FilterIndex | tests/wifi_wake_linux.py:70 | a character kept by removing the colons keeps a place in the result |
| Wol.Successes | tests/wifi_wake_linux.py:123-126 | never more successes than sends |
| Wol.SuccessesPositive | tests/wifi_wake_linux.py:126-134 | the success count is positive exactly when some send has no fault |
| Wol.Gaps | tests/wifi_wake_linux.py:127-128 | one pause of `interval` between consecutive sends, none after the last |
| WifiWakeLinux.SendAsWritten | tests/wifi_wake_linux.py:58-107 | the call as written raises, always `AttributeError` from `sock.close()` on `None`, exactly when the MAC is unreadable or the socket cannot be created; otherwise it returns whether no socket call failed |
| WifiWakeLinux.MalformedMacEscapes | tests/wifi_wake_linux.py:65-107 | an unreadable MAC makes the call raise `AttributeError` instead of returning `False` |
| WifiWakeLinux.MalformedMacExample | tests/wifi_wake_linux.py:65-107 | the MAC "xx" shows it |
| WifiWakeLinux.BatchAsWritten | tests/wifi_wake_linux.py:109-134 | the batch as written raises `AttributeError` exactly when one of its sends does |
| WifiWakeLinux.MalformedMacEndsBatch | tests/wifi_wake_linux.py:109-134 | as written, a batch of at least one send with an unreadable MAC raises |
| WifiWakeLinux.WolSender.constructor | tests/wifi_wake_linux.py:18-34 | the sender keeps the MAC, broadcast address and port |
| WifiWakeLinux.WolSender.Expected | tests/wifi_wake_linux.py:70-77 | a packet exactly when the MAC is readable, of 6 + 16 times its length |
| WifiWakeLinux.WolSender.SendMagicPacket | tests/wifi_wake_linux.py:58-107 | corrected: true exactly when the MAC is readable and no socket call fails; a success sends exactly the magic packet; agrees with the as-written call wherever that does not raise |
| WifiWakeLinux.WolSender.SendWakeupPackets | tests/wifi_wake_linux.py:109-134 | corrected: built on the corrected send, the success count is the number of faultless sends when the MAC is readable, else zero; the result is whether it is positive; each datagram is the magic packet; one pause between consecutive sends |
| Wol.SendingDone | tests/wifi_wake_linux.py:109-134 | once every send is done the count is the number of faultless sends of a readable MAC, positive exactly when one got through, with one magic packet per success and a pause between consecutive sends |
| WifiWakeup.FindBroadcastAddress | tests/wifi_wakeup.py:58-70 | the interface's broadcast address when there is a non-empty one, else 255.255.255.255 |
| WifiWakeup.WolSender.constructor | tests/wifi_wakeup.py:7-11 | the sender keeps the MAC, broadcast address and port |
| WifiWakeup.WolSender.SendMagicPacket | tests/wifi_wakeup.py:30-56 | an unreadable MAC or a failed socket set-up raises before any send; otherwise the sends up to the first failure, each the magic packet, with the pauses between them, the socket closed, and true exactly when no send fails |
| WifiWakeup.SendUntilFailure | tests/wifi_wakeup.py:42-54 | the packet goes out once per send up to the first failing `sendto`, with the interval between consecutive sends; true exactly when no send fails |
| WifiWakeup.MacAcceptedIff | tests/wifi_wakeup.py:171-172 | the second constructor refuses the MAC exactly when it is missing or only white space |
| WifiWakeup.PerPacketWolSender.constructor | tests/wifi_wakeup.py:159-176 | the sender keeps the MAC, broadcast address, port and name |
| WifiWakeup.CreatePerPacket | tests/wifi_wakeup.py:159-176 | a sender exactly when the MAC is accepted, with the given settings |
| WifiWakeup.SecondSendAsWritten | tests/wifi_wakeup.py:176-226 | the second `send_magic_packet` as written can only raise `AttributeError`, and any result it returns would say whether some send succeeded |
| WifiWakeup.LoggerNeverSet | tests/wifi_wakeup.py:176-226 | the second constructor never sets `logger`, so every call of the second `send_magic_packet` raises `AttributeError` |
| WifiWakeup.PerPacketWolSender.Expected | tests/wifi_wakeup.py:236-252 | a packet exactly when the MAC is readable: the magic packet for its bytes, to the broadcast address and port |
| WifiWakeup.PerPacketWolSender.SendOnce | tests/wifi_wakeup.py:233-268 | one pass succeeds exactly when the MAC is readable and no socket call fails, and then sends exactly the magic packet |
| WifiWakeup.PerPacketWolSender.SendMagicPacket | tests/wifi_wakeup.py:218-292 | corrected: with the logger set, the success count is the number of faultless sends when the MAC is readable, else zero; true exactly when it is positive; each datagram is the magic packet; a pause between consecutive sends, failed or not |
| PowerStates.Name | tests/test_ble_reconect.py:34-67 | every state has a non-empty name |
| PowerStates.NameInjective | tests/test_ble_reconect.py:34-67 | different states have different names |
| PowerStates.Allowed | tests/test_ble_reconect.py:48-53 | no state lists itself as a target |
| PowerStates.MovesExactly | tests/test_ble_reconect.py:48-53 | exactly IDLE to OFF or SLEEP and SLEEP or OFF back to IDLE are allowed; ON takes part in none |
| PowerStates.MovesReversible | tests/test_ble_reconect.py:48-53 | every allowed move can be undone |
| PowerStates.OnUnreachable | tests/test_ble_reconect.py:43-64 | no sequence of requests reaches ON from another state or leaves it |
| PowerStates.DeviceController.constructor | tests/test_ble_reconect.py:42-43 | a controller starts IDLE |
| PowerStates.DeviceController.Transition | tests/test_ble_reconect.py:47-64 | true exactly for an allowed move, which becomes the state; otherwise the state stays |
| PowerStates.DeviceController.GetCurrentState | tests/test_ble_reconect.py:66-67 | the name of the current state |

## Left out

- Processes, files and devices: `subprocess`, `select`, `pkill`, `hciconfig`, `hcitool`, `bluetoothctl`, `fcntl.flock`, `os.open` and `os.remove`, serial ports and sockets are not modelled. Their results are inputs, one per call, and a lock file is a host cell.
- Time: waits are recorded as lists of lengths, and timeouts are given as outcomes. No clock is modelled.
- Concurrency: the reader threads, `threading.Event` and the UI update thread are not modelled. Events are booleans, and a thread's loop body is a method called once per read.
- Graphical interfaces: the tkinter widgets of the serial terminal and the hex converter are left out. Their reads and writes are parameters and results.
- Logging and `print`: these are treated as doing nothing, except where a missing logger makes the code raise (see Findings).
- Configuration files: the YAML logging configuration and its `KeyError` paths are not modelled.
- `Text.Lower`: lowers ASCII letters only, while Python's `str.lower` also lowers other scripts. For the command outputs it is compared with ASCII keywords, where this makes no difference; for device names it does (next lines).
- `ScanMatch.FirstTargetMac`: folds the device names and the target with `Text.Lower`, ASCII letters only, where tests/bt_reconnect_linux.py:174-176 uses `str.lower`; a target "É" matches a device named "é" in the source and not in the model.
- `ClassicBt.FirstNamedSpec`: compares names folded ASCII-only, as `ScanMatch.FirstTargetMac` does, so a name that matches only after non-ASCII lowering is not found.
- `ClassicBt.ScanMacIff`: the name comparison inside it is the ASCII-only one of `ClassicBt.FirstNamedSpec`.
- `ClassicBt.ScanMacOf`: the name comparison inside it is the ASCII-only one of `ClassicBt.FirstNamedSpec`.
- `ClassicBt.Tester.ScanTargetDevice`: finds the target with the ASCII-only comparison of `ClassicBt.FirstNamedSpec`.
- `Utf8.Decode`: models `errors='ignore'` by dropping one byte at a time. The `errors='replace'` decoding is not modelled: in the serial terminal (tests/serail_tool.py:343) and in the readers of the two serial monitors (tests/device_sleep_from_serail.py:107, tests/device_sleep_manager.py:92) the input is taken as already-decoded text. So a character whose bytes are split across two reads is not turned into replacement characters.
- Fixed settling pauses are not recorded; only the retry waits and the lock polling are:
  - the 1 s and 2 s pauses inside a reset, a scan or a connect (tests/ble_control.py:282-290, 326, 410-414 and 536-541);
  - in tests/all_ble_serail.py, every pause other than the counted 2 s retry sleeps, such as the 0.5 s pause after each command (84), between sleep commands (359), the 0.1 s polling of the serial port (401-407) and `CYCLE_DELAY` between cycles (571);
  - in tests/only_ble_wakeup.py, every pause other than the 30 s wait between calls, such as the 1 s pauses after the advertising command, after each scan attempt and after each connect attempt, and the 2 s pause after a periodic reset (45, 199, 259, 261);
  - the 0.3 s pause between sleep commands (tests/device_sleep_manager.py:133, tests/device_sleep_from_serail.py:199);
  - the readers' pauses after a read error (tests/device_sleep_manager.py:103 and 106, tests/device_sleep_from_serail.py:127);
  - `POST_WAKEUP_DELAY` and the 10 s pause between runs (tests/device_sleep_from_serail.py:258 and 292);
  - the 0.05 s and 0.1 s polling pauses of the serial terminal's reader and UI loops.
- The line `ON = auto` (the class rather than `auto()`) still makes `ON` a member of `PowerState`. The model keeps it as a state that no transition reaches.
- `LeetCode.AddTwoNumbers`: states that the result shares no node with either input list, not that every result node is newly allocated; `LeetCode.AddNode` does state that each node it appends is new.
- `LeetCode.AddTwoNumbers`: requires non-negative digits. With a negative digit, Python's floor division keeps the carry at -1, so the source never terminates.
- `Lock.PlainLock.AcquireRetried`: does not record the waits between its attempts; only their number is bounded.
- `BleSerialCycle.RunFullTestCycle`: does not return the waits of the operations it calls. The readiness checks, the scan (its 2 s sleeps and its resets'), the sleep attempts and the wake checks each state their own in their rows, but the cycle drops them.
- `BleSerialCycle.VerifyDeviceWakeup`: returns no sleep count; its 2 s sleeps follow every failed attempt, so they number `attempts` on failure and `attempts - 1` on success.
- `BleSerialCycle.EnsureAdapterReady`: returns the number of resets it runs, not their sleeps nor the 2 s pause after each `up`.
- `ClassicBt.Tester.RunFullTest`: drops the backoff waits of its five retried steps; `Retry.RetryTruthy` states them for each step.
- `BleWakeup.BleConnect`: drops the lock polling sleeps, the number of scan attempts and the connect loop's attempts and periodic resets; `Lock.PlainLock.Acquire`, `BleWakeup.ScanLoop` and `BleWakeup.ConnectLoop` state them.
- `ClassicBt.ScanVerdicts`: its own contract states only the number of verdicts; `ClassicBt.ScanVerdictAt` states each one.
- `WifiWakeup.PerPacketWolSender.SendMagicPacket`: does not model the socket left open when `sendto` fails. Only the datagrams sent and the count are modelled.
- `Telnet.Negotiate`: takes every reply as sent. A `sock.send` that raises during negotiation (tests/uut_sleep_monitor.py:49) is not modelled. In the source it ends negotiation with no data left over, as a failed `recv` does.
- `BleController.RunCommand`: models the corrected read loop (`StreamToEof`), which reads to the end of the stream. As written the loop stops at the first blank line; see the Findings row on tests/ble_control.py:188-197 and `BleController.StreamAsWritten`.
- `BleController.StdoutShowsLine`: holds of the corrected read loop only. As written, a non-blank line after a blank one never reaches `stdout`; see the Findings row on tests/ble_control.py:188-197.
- `SerialTerminal.Terminal.ReadSerial`: queues a read error as a text item, the corrected behaviour. As written it is queued as bytes; see the Findings row on tests/serail_tool.py:287-289 and `SerialTerminal.ShownAsWritten`.
- `SerialTerminal.Terminal.UpdateUi`: shows read errors as error text even with the receive display off, the corrected behaviour; see the Findings row on tests/serail_tool.py:287-289.
- `SerialTerminal.Terminal.ShowItem`: renders the text `ReadError` item of the corrected reader; see the Findings row on tests/serail_tool.py:287-289.
- `SerialTerminal.Fed`: the corrected reader, queueing a read error as text; see the Findings row on tests/serail_tool.py:287-289.
- `SerialTerminal.Shown`: shows the text `ReadError` items of the corrected reader; see the Findings row on tests/serail_tool.py:287-289.
- `WifiWakeLinux.WolSender.SendWakeupPackets`: built on the corrected send, so an unreadable MAC gives a zero count. As written the send raises `AttributeError`; see the Findings row on tests/wifi_wake_linux.py:65, 94-107 and `WifiWakeLinux.BatchAsWritten`.
- `WifiWakeLinux.WolSender.SendMagicPacket`: the corrected send; see the Findings row on tests/wifi_wake_linux.py:65, 94-107.
- `SerialSleepTest.RunTests`: runs every test through the corrected `RunSingleTest`. As written the first run whose device sleeps raises `TypeError`; see the Findings row on tests/device_sleep_from_serail.py:239-242 and `SerialSleepTest.HciKeywordCrashes`.
- `SerialSleepTest.SerialMonitor.RunSingleTest`: builds the connector with the parameters it takes; see the Findings row on tests/device_sleep_from_serail.py:239-242.
- `SerialTest.SerialTester.DoBatchTest`: takes the stop flag as an input that may turn true between cases, the corrected behaviour. As written it never does; see the Findings row on tests/serial_test_tool.py:33, 134 and `SerialTest.StopNeverSeen`.
- `SerialTest.StopPoint`: the stop point of the corrected tool, whose stop button sets the flag; see the Findings row on tests/serial_test_tool.py:33, 134.
- `cleanup_ble_processes` and the `sudo pkill` calls are not modelled, because their only effect is on other processes.
- The example `__main__` blocks that only build an object and print its result are not modelled.
- The print-only exercises of `tests/leetcode_test.py` are not modelled: `multiplication_table`, `testsum`, `maxmin` and `testtype`.
- The file reading and writing of `remove_chinese` is not modelled. Only its two filters are.
- `printLinkedList` is modelled by the values it walks (`LeetCode.ListValues`), not by what it prints.

## Findings

| source | as written | input that shows it | evidently intended | confidence | as-written member | corrected member |
|---|---|---|---|---|---|---|
| tests/ble_control.py:661, 714-767 | the second `BLEConnector` comments out its logger set-up but logs during adapter detection, so its constructor always raises `AttributeError` | any valid name with `hciconfig` output listing a USB adapter | a logger set up before detection, so the constructor builds the connector | not executed | BleController.SecondCtorNeverBuilds | BleController.CtorOutcome |
| tests/wifi_wake_linux.py:65, 94-107 | `sock = None` makes `'sock' in locals()` always true, so an unreadable MAC or a failed socket creation ends in `None.close()` and raises `AttributeError` instead of returning `False` | the MAC text "xx" | close the socket only when one was created, and return `False` | not executed | WifiWakeLinux.MalformedMacExample | WifiWakeLinux.WolSender.SendMagicPacket |
| tests/device_sleep_from_serail.py:239-242 | passes `hci_device=` to `BLEConnector`, but neither constructor of that name takes such a parameter (tests/ble_control.py:27, nor tests/ble_control.py:646 of the second class, the one the import binds), so the first test whose device sleeps raises `TypeError` | a run in which the sleep marker arrives | construct the connector with the parameters it takes | not executed | SerialSleepTest.HciKeywordCrashes | SerialSleepTest.SerialMonitor.RunSingleTest |
| tests/wifi_wakeup.py:176, 226 | the second `WolSender` comments out `self.logger = ...` but `send_magic_packet` logs first, so every call raises `AttributeError` before sending | any call of `send_magic_packet` | a logger set in the constructor, so the sends go out | not executed | WifiWakeup.LoggerNeverSet | WifiWakeup.PerPacketWolSender.SendMagicPacket |
| tests/ble_control.py:400-403, 511-520 | each scan attempt names a new temporary file, but only the last one is deleted, so earlier attempts' files are left on disk | two scan attempts, each with its own file | delete each attempt's file, as tests/ble_connector.py:571-584 does | not executed | BleController.ScanFilesLeak | BleController.ScanFilesCleaned |
| tests/ble_control.py:188-197 | `line = fd.readline().strip()`, then `if line: …` appends it, `else: fds.remove(fd)`: a blank line is taken for end of stream (the comment at line 196 says so), so the stream is dropped from `select` at its first blank line and its later lines are never read | the output "a\n\nb\n" | read to the end of the stream, skipping blank lines | not executed | BleController.BlankLineTruncates | BleController.StreamToEofKeeps |
| tests/serail_tool.py:287-289 | a read error is queued as bytes, so `update_ui` never takes its error branch: the error is hidden when the receive display is off, and otherwise shown as received data | a read that raises `SerialException` | queue the error as text, and show it as error text without calling `data.decode` on it (line 343 calls `decode` on that branch's item, which would raise `AttributeError` on a `str`), so it is always shown as an error | not executed | SerialTerminal.ReadErrorMisrendered | SerialTerminal.ErrorsAlwaysShown |
| tests/serial_test_tool.py:33, 134 | `self.stop_batch_test = False` is assigned before `create_widgets()` binds `command=self.stop_batch_test`, so the stop button gets `False`, not the method at line 462; clicking it raises, and only line 392 ever sets the flag, to `False` | a batch of several cases with the stop button clicked after the first | a flag with its own name, say `self.stop_requested`, set by the button's method and checked before each case | not executed | SerialTest.StopNeverSeen | SerialTest.SerialTester.DoBatchTest |
