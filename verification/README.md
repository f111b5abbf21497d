# N3FJP bridge — a Dafny model

The N3FJP bridge connects to the TCP API of the N3FJP amateur-radio logger. It subscribes to
field updates. When an operator logs a contact (an ENTEREVENT), it asks the logger for band,
mode and frequency (READBMF). It then forwards the contact once: as an N1MM-style UDP
`contactinfo` packet and, optionally, as a JSON POST to OpenHamClock.

This project models that core as pure functions over immutable data and proves what the
bridge promises about it. The modules follow the program's structure:

- `Wrappers` holds `Option`.
- `Text` models Python's `strip`, ASCII `upper`/`lower`, `rfind`, `rstrip` and `replace`.
  `isspace` is the full Unicode list. `lower` includes U+0130, whose lower-case form is two
  characters long.
- `Framing` models the receive buffer:
  - the 300000-character cap;
  - `CMD_BLOCK_RE.findall`, as the leftmost-shortest, case-insensitive, non-overlapping
    `<CMD>…</CMD>` matches;
  - the cut after the last `</cmd>`.
- `Fields` models `detect_cmd_type` and `get_tag_value` directly as string matchers. Each has
  a reference definition of what the regular expression matches, and the two are proved equal.
- `Tables` models `normalize_mode` and the band table of `band_to_mhz`.
- `Ohc` models the OpenHamClock address, the `:3000` to `:3001` retry, `round()` and the
  posted JSON object.
- `Qso` models the per-connection state machine:
  - `send_cmd` framing;
  - the classification of a block into an event;
  - one step per event;
  - runs of events.

  Its output is a list of actions:
  - `Send` is a command to N3FJP;
  - `Emit` is one UDP contact packet;
  - `Post` is one OpenHamClock POST.
- `Session` models one connection: subscribe, then receive chunks. Each chunk is re-framed,
  classified and stepped. The loop is written for any classifier and step function, and
  `Bridge` plugs in the bridge's own.
- `Backoff` models the reconnect schedule.
- `Config` models `apply_config`: defaults, then config.json, then the environment. It
  includes Python's `str`, `int` and `bool` on JSON values.

Frequencies arrive as text. Python's `float()` is a parameter `parse: string -> Option<real>`.
`None` stands for the ValueError that the bridge turns into 0.0.

The source file is `n3fjp-bridge/src/n3fjp_bridge.py`.

## Model

| member | source | states |
|---|---|---|
| Text.Trim | n3fjp-bridge/src/n3fjp_bridge.py:228 | `strip()` removes exactly the leading and trailing Unicode whitespace; the result is empty iff the text is all blank |
| Text.TrimIdempotent | n3fjp-bridge/src/n3fjp_bridge.py:346 | stripping twice is stripping once |
| Text.TrimPadded | n3fjp-bridge/src/n3fjp_bridge.py:233 | blanks around stripped text are removed and nothing else |
| Text.Upper | n3fjp-bridge/src/n3fjp_bridge.py:222 | `upper()` works character by character and keeps the length |
| Text.UpperOfUpper | n3fjp-bridge/src/n3fjp_bridge.py:255 | upper-case text is left as it is |
| Text.LowerInPlace | n3fjp-bridge/src/n3fjp_bridge.py:341 | without U+0130, `lower()` keeps every character in its place |
| Text.Lower | n3fjp-bridge/src/n3fjp_bridge.py:341 | `lower()` never shortens a text and at most doubles it |
| Text.LowerAppend | n3fjp-bridge/src/n3fjp_bridge.py:341 | `lower()` of a concatenation is the concatenation of the lowered parts |
| Text.RFind | n3fjp-bridge/src/n3fjp_bridge.py:341 | `rfind` gives the last occurrence, or none when there is none |
| Text.RFindFold | n3fjp-bridge/src/n3fjp_bridge.py:341-343 | the last case-insensitive occurrence; nothing matches after it |
| Text.RStrip | n3fjp-bridge/src/n3fjp_bridge.py:83 | `rstrip('/')` removes exactly the trailing run of '/' |
| Text.FindFrom | n3fjp-bridge/src/n3fjp_bridge.py:51 | the first case-insensitive occurrence at or after a position, or none |
| Framing.Capped | n3fjp-bridge/src/n3fjp_bridge.py:334-335 | a buffer over 300000 characters becomes exactly its last 80000 characters; a shorter one is left as it is |
| Framing.FirstPair | n3fjp-bridge/src/n3fjp_bridge.py:51 | the lazy search finds the first opener and the nearest closer after it, and finds nothing exactly when no opener has a closer after it |
| Framing.FirstPairUnique | n3fjp-bridge/src/n3fjp_bridge.py:51 | any span meeting the leftmost-shortest definition is the one the search returns |
| Framing.Blocks | n3fjp-bridge/src/n3fjp_bridge.py:337 | `findall` is a scan of successive leftmost-shortest matches |
| Framing.ScanSpansOrdered | n3fjp-bridge/src/n3fjp_bridge.py:337 | the blocks found are in order, do not overlap, and each starts with `<CMD>` and ends with `</CMD>` |
| Framing.BlocksUnique | n3fjp-bridge/src/n3fjp_bridge.py:337 | there is only one such scan |
| Framing.ScanEndHasNoPair | n3fjp-bridge/src/n3fjp_bridge.py:337 | after the last block no complete block remains |
| Framing.CutAfterLastClose | n3fjp-bridge/src/n3fjp_bridge.py:341-343 | the buffer becomes exactly the text after the last `</cmd>` in any case; it is unchanged iff there is none |
| Framing.CutAsWritten | n3fjp-bridge/src/n3fjp_bridge.py:341-343 | the cut as written, with the index taken from the lowered text; the result is a suffix |
| Framing.CutAsWrittenAgrees | n3fjp-bridge/src/n3fjp_bridge.py:341-343 | without U+0130 the cut as written is the intended cut |
| Framing.CutAsWrittenOvershoots | n3fjp-bridge/src/n3fjp_bridge.py:341-343 | a U+0130 in front makes the cut as written drop one character too many |
| Framing.CutAsWrittenDropsOpener | n3fjp-bridge/src/n3fjp_bridge.py:341-343 | on `İ<cmd></cmd><CMD>` the intended cut keeps `<CMD>` while the cut as written leaves `CMD>` |
| Framing.Reframe | n3fjp-bridge/src/n3fjp_bridge.py:334-343 | the new buffer is the capped buffer when no block is complete; after blocks it is exactly what follows the last `</CMD>` of the capped buffer (the corrected cut), and it holds no `</CMD>` |
| Framing.ReframeAsWrittenAgrees | n3fjp-bridge/src/n3fjp_bridge.py:341-343 | without U+0130 in the capped buffer, the buffer left is the one the bridge's own cut leaves |
| Framing.ReframedBlocks | n3fjp-bridge/src/n3fjp_bridge.py:337 | the blocks handed on are exactly the texts of the scan, each framed by `<CMD>` and `</CMD>` |
| Framing.ReframeKeepsIncompleteBlock | n3fjp-bridge/src/n3fjp_bridge.py:337-343 | an opener after the last complete block is kept in the buffer |
| Framing.ReframeWithoutPair | n3fjp-bridge/src/n3fjp_bridge.py:334-339 | a buffer within the cap that holds no complete block is left as it is, with no blocks |
| Framing.ReframeSettles | n3fjp-bridge/src/n3fjp_bridge.py:337-343 | re-framing the new buffer finds no block and changes nothing |
| Framing.OpenCloseDisjoint | n3fjp-bridge/src/n3fjp_bridge.py:51 | an opener and a closer never overlap |
| Fields.NameEnd | n3fjp-bridge/src/n3fjp_bridge.py:221 | `[A-Z0-9_]+` consumes the longest run of name characters |
| Fields.TagFromSound | n3fjp-bridge/src/n3fjp_bridge.py:221 | what the matcher after `<CMD>` returns is a match of `\s*<name>` |
| Fields.TagFromComplete | n3fjp-bridge/src/n3fjp_bridge.py:221 | every match of `\s*<name>` is found, with the same group |
| Fields.OpenAtMatch | n3fjp-bridge/src/n3fjp_bridge.py:221 | the five-character check is the case-insensitive match of `<CMD>` |
| Fields.FirstTag | n3fjp-bridge/src/n3fjp_bridge.py:221 | `re.search` finds the leftmost position where the pattern matches, or none |
| Fields.DetectCmdType | n3fjp-bridge/src/n3fjp_bridge.py:215-222 | the result is "" or an upper-case command name |
| Fields.DetectCmdTypeSearch | n3fjp-bridge/src/n3fjp_bridge.py:215-222 | "" exactly when the pattern matches nowhere; otherwise the upper-cased group of the leftmost match |
| Fields.DetectWritten | n3fjp-bridge/src/n3fjp_bridge.py:215-222 | `<CMD>`, blanks, then `<name>` is detected as the upper-cased name |
| Fields.GetTagValue | n3fjp-bridge/src/n3fjp_bridge.py:225-228 | the result is stripped, and "" when no element is complete |
| Fields.GetTagValueOfFirst | n3fjp-bridge/src/n3fjp_bridge.py:225-228 | the value is the stripped inside of the first complete element |
| Fields.GetTagValueWritten | n3fjp-bridge/src/n3fjp_bridge.py:225-228 | an element written out yields its stripped contents |
| Tables.ModeKey | n3fjp-bridge/src/n3fjp_bridge.py:255 | the key is stripped and upper-case |
| Tables.NormalizeMode | n3fjp-bridge/src/n3fjp_bridge.py:250-260 | never "", always stripped and upper-case |
| Tables.NormalizeModeClasses | n3fjp-bridge/src/n3fjp_bridge.py:256-260 | "SSB" iff a phone mode, "DIGI" iff DI, "UNKNOWN" iff blank, anything else passed on as its key |
| Tables.NormalizeModeOfKey | n3fjp-bridge/src/n3fjp_bridge.py:255 | case and surrounding blanks do not matter |
| Tables.NormalizeModeIdempotent | n3fjp-bridge/src/n3fjp_bridge.py:250-260 | normalising twice is normalising once |
| Tables.BandToMhz | n3fjp-bridge/src/n3fjp_bridge.py:231-248 | known iff the key is listed; the value is then one of the twelve positive frequencies |
| Tables.BandKeyShape | n3fjp-bridge/src/n3fjp_bridge.py:233 | no "M" is left in the key |
| Tables.BandTableKeys | n3fjp-bridge/src/n3fjp_bridge.py:234-248 | each of the twelve listed bands is found with its own frequency |
| Tables.BandIgnoresBlanks | n3fjp-bridge/src/n3fjp_bridge.py:233 | blanks around the band do not change the lookup |
| Tables.BandIgnoresMeterSuffix | n3fjp-bridge/src/n3fjp_bridge.py:233 | "20", "20m" and "20M" look up the same |
| Text.ReplaceAll | n3fjp-bridge/src/n3fjp_bridge.py:233 | replacing by a text no longer than the pattern never lengthens the result |
| Tables.ReplaceCharAppend | n3fjp-bridge/src/n3fjp_bridge.py:233 | removing a one-character pattern works piece by piece |
| Tables.ReplaceAbsent | n3fjp-bridge/src/n3fjp_bridge.py:233 | text without the pattern is left as it is |
| Ohc.QsoUrl | n3fjp-bridge/src/n3fjp_bridge.py:83 | the address is the base without trailing '/', followed by the QSO path |
| Ohc.QsoUrlSlash | n3fjp-bridge/src/n3fjp_bridge.py:83 | a trailing slash on the base makes no difference |
| Ohc.Attempts | n3fjp-bridge/src/n3fjp_bridge.py:91-114 | a second address is tried iff the first got no answer and the base has ":3000"; it is the address for the base with ":3001" |
| Ohc.FallbackLeavesNoFirstPort | n3fjp-bridge/src/n3fjp_bridge.py:104 | the retry base has no ":3000" left |
| Ohc.FirstDelimiter | n3fjp-bridge/src/n3fjp_bridge.py:86 | the first '/' or ':' from a position on, or none when there is neither |
| Ohc.PostAsWritten | n3fjp-bridge/src/n3fjp_bridge.py:83-114 | as written, the post raises exactly when the QSO address has no scheme, and otherwise tries the addresses of `Attempts` |
| Ohc.Post | n3fjp-bridge/src/n3fjp_bridge.py:78-114 | with the request built inside the `try`, the post always returns after trying the QSO address; an address without a scheme counts as a failed first attempt |
| Ohc.PostAgrees | n3fjp-bridge/src/n3fjp_bridge.py:83-114 | wherever the post as written returns, the corrected post tries the same addresses |
| Ohc.NoSchemeWithoutColon | n3fjp-bridge/src/n3fjp_bridge.py:83-86 | a base address with neither '/' nor ':' gives a QSO address without a scheme |
| Ohc.PostAsWrittenRaises | n3fjp-bridge/src/n3fjp_bridge.py:81-86 | with base address `ohc.local` the post as written raises, while the corrected post makes its one attempt |
| Ohc.RoundHalfEven | n3fjp-bridge/src/n3fjp_bridge.py:266 | `round()` is within one half and breaks ties to even |
| Ohc.Khz | n3fjp-bridge/src/n3fjp_bridge.py:263-268 | the kHz value is within one half of MHz × 1000 |
| Ohc.Payload | n3fjp-bridge/src/n3fjp_bridge.py:409-426 | `freq_khz` is null iff not positive; the mode is normalised; `de_call` is present iff MYCALL is not blank, then stripped and upper-case; `dx_grid` is present iff a grid is remembered |
| Qso.Ascii | n3fjp-bridge/src/n3fjp_bridge.py:212 | the bytes are never more than the characters, and ASCII text is kept byte for byte |
| Qso.AsciiChar | n3fjp-bridge/src/n3fjp_bridge.py:212 | one character becomes its own byte when it is ASCII and nothing otherwise |
| Qso.AsciiAppend | n3fjp-bridge/src/n3fjp_bridge.py:212 | encoding distributes over concatenation, so with `AsciiChar` the bytes are exactly the ASCII characters of the text, in order |
| Qso.Wire | n3fjp-bridge/src/n3fjp_bridge.py:210-212 | a command is sent with CR LF at the end |
| Qso.Classify | n3fjp-bridge/src/n3fjp_bridge.py:345-393 | the command name of the stripped block decides the event, each of the four names one event and any other name or none `Ignored`; the event carries VALUE, the upper-cased CONTROL, or BAND, MODETEST, MODE and FREQ as found in the block |
| Qso.ClassifyWritten | n3fjp-bridge/src/n3fjp_bridge.py:345-393 | a block written as `<CMD>`, blanks, `<name>` is read by the name in any case: each known name gives its event with its fields, every other name is ignored |
| Qso.ClassifyWithoutCommand | n3fjp-bridge/src/n3fjp_bridge.py:346-348 | a block without a command name is ignored |
| Qso.Remember | n3fjp-bridge/src/n3fjp_bridge.py:355-369 | TXTENTRYCALL or TXTENTRYGRID with a non-blank value replaces the call or grid; anything else changes nothing |
| Qso.Arm | n3fjp-bridge/src/n3fjp_bridge.py:371-377 | ENTEREVENT arms a send for the remembered call and clears band and frequency |
| Qso.FreqOf | n3fjp-bridge/src/n3fjp_bridge.py:387-390 | an unparsable frequency becomes 0 |
| Qso.ModeOf | n3fjp-bridge/src/n3fjp_bridge.py:384 | MODETEST is preferred, and MODE is used only when MODETEST is empty |
| Qso.Forward | n3fjp-bridge/src/n3fjp_bridge.py:398-428 | one contact packet for MYCALL, the pending call, the mode (SSB when blank), band and frequency; then, only when OpenHamClock is enabled, one POST to the configured base with the configured key, whose object is `Payload` of the pending call, band, frequency, mode, MYCALL and remembered grid |
| Qso.StepPosts | n3fjp-bridge/src/n3fjp_bridge.py:398-428 | with OpenHamClock enabled, the step that sends a packet also posts, and the post describes the packet's own contact with the grid remembered before the answer |
| Qso.FreshInv | n3fjp-bridge/src/n3fjp_bridge.py:314-321 | a new connection satisfies the invariant |
| Qso.StepKeepsInv | n3fjp-bridge/src/n3fjp_bridge.py:351-443 | every step keeps the invariant: the mode is never empty and a disarmed state has no pending call |
| Qso.Packets | n3fjp-bridge/src/n3fjp_bridge.py:406 | the packets sent are exactly the emitted contacts |
| Qso.PacketsAppend | n3fjp-bridge/src/n3fjp_bridge.py:406 | the packets of consecutive actions are concatenated |
| Qso.ForwardPackets | n3fjp-bridge/src/n3fjp_bridge.py:398-428 | forwarding sends exactly one packet |
| Qso.AnswerPackets | n3fjp-bridge/src/n3fjp_bridge.py:382-443 | a READBMF answer sends exactly the contact the reference definition expects, and nothing otherwise |
| Qso.StepPackets | n3fjp-bridge/src/n3fjp_bridge.py:395-443 | a step sends a packet only when armed with a call, a known band and a non-zero frequency, and then exactly that contact |
| Qso.AnswerDisarms | n3fjp-bridge/src/n3fjp_bridge.py:392-443 | an answer always leaves the state disarmed; when it was armed, the pending call and grid are cleared |
| Qso.EnterArms | n3fjp-bridge/src/n3fjp_bridge.py:371-380 | ENTEREVENT changes only the send fields, band and frequency, and sends READBMF |
| Qso.AnswerMode | n3fjp-bridge/src/n3fjp_bridge.py:384-392 | the mode comes from MODETEST, else MODE, and a blank answer keeps the previous mode |
| Qso.RunKeepsInv | n3fjp-bridge/src/n3fjp_bridge.py:345-443 | any run of events keeps the invariant |
| Qso.PacketsPerEnter | n3fjp-bridge/src/n3fjp_bridge.py:6 | packets sent plus a send still armed never exceed the ENTEREVENTs plus a send armed at the start |
| Qso.FreshPacketsPerEnter | n3fjp-bridge/src/n3fjp_bridge.py:6 | at most one UDP packet per logged QSO on a connection |
| Qso.LoggedQsoSendsOne | n3fjp-bridge/src/n3fjp_bridge.py:6 | ENTEREVENT then a complete READBMF answer sends exactly one packet, for the remembered call and band |
| Qso.RunPair | n3fjp-bridge/src/n3fjp_bridge.py:345 | two events are handled one after the other |
| Qso.Step | n3fjp-bridge/src/n3fjp_bridge.py:351-443 | no contract of its own; `StepKeepsInv`, `StepPackets`, `StepRequests`, `StepPosts`, `EnterArms`, `AnswerDisarms` and `AnswerMode` describe it |
| Qso.Answer | n3fjp-bridge/src/n3fjp_bridge.py:382-443 | no contract of its own; `AnswerPackets`, `AnswerDisarms` and `AnswerMode` describe it |
| Qso.Run | n3fjp-bridge/src/n3fjp_bridge.py:345 | no contract of its own; `RunKeepsInv`, `PacketsPerEnter`, `RunRequests` and `RunPair` describe it |
| Qso.Expected | n3fjp-bridge/src/n3fjp_bridge.py:395-406 | the reference packet, stated from the step's inputs rather than its code; `StepPackets` proves a step sends exactly it |
| Qso.Requests | n3fjp-bridge/src/n3fjp_bridge.py:210-212 | the commands sent are exactly the `Send` actions' texts |
| Qso.RequestsAppend | n3fjp-bridge/src/n3fjp_bridge.py:345 | the commands of consecutive actions are concatenated |
| Qso.StepRequests | n3fjp-bridge/src/n3fjp_bridge.py:371-380 | only ENTEREVENT sends N3FJP a command, and that command is READBMF |
| Qso.RunRequests | n3fjp-bridge/src/n3fjp_bridge.py:345-380 | over any run, the commands sent are exactly one READBMF per ENTEREVENT |
| Session.Receive | n3fjp-bridge/src/n3fjp_bridge.py:325-443 | one pass of the receive loop leaves the re-framed buffer, makes one event per block taken out, classified in order, and its actions are the machine's run over those events |
| Session.SessionRequests | n3fjp-bridge/src/n3fjp_bridge.py:311-380 | over a connection the subscription request goes out first and only there, every later command is READBMF, and there is one per ENTEREVENT |
| Session.RunWithAppend | n3fjp-bridge/src/n3fjp_bridge.py:345 | running two event lists back to back is running their concatenation |
| Session.BridgeRuns | n3fjp-bridge/src/n3fjp_bridge.py:345-443 | the loop's run over a block list is the state machine's run |
| Session.Feed | n3fjp-bridge/src/n3fjp_bridge.py:325-443 | no chunks change nothing; over any run of receives the buffer stays within 300000 characters, and the connection's state and actions are the machine's run over the feed's events |
| Session.FeedOne | n3fjp-bridge/src/n3fjp_bridge.py:325-345 | feeding one chunk is one receive |
| Session.FeedAppend | n3fjp-bridge/src/n3fjp_bridge.py:325-345 | feeding two runs of chunks is feeding the second from where the first left off, events and actions concatenated; with `FeedOne`, a feed is its chunks' receives in order |
| Session.FeedCons | n3fjp-bridge/src/n3fjp_bridge.py:325-345 | a feed is its first receive, then the feed of the rest from the connection it leaves |
| Session.SplitWithoutBlock | n3fjp-bridge/src/n3fjp_bridge.py:330-339 | when a receive takes out no block and the buffer does not overflow, receiving its text and then more is receiving both at once |
| Session.ReceiveQuiet | n3fjp-bridge/src/n3fjp_bridge.py:334-339 | a receive that takes out no block and does not overflow keeps all the text and does nothing |
| Session.FeedKeepsInv | n3fjp-bridge/src/n3fjp_bridge.py:314-443 | the connection's state keeps the invariant |
| Session.SessionPacketsPerEnter | n3fjp-bridge/src/n3fjp_bridge.py:6 | over a whole connection there is at most one packet per ENTEREVENT received |
| Session.ReceiveWithoutBlock | n3fjp-bridge/src/n3fjp_bridge.py:337-339 | a receive that completes no block only caps the buffer and does nothing else |
| Backoff.Next | n3fjp-bridge/src/n3fjp_bridge.py:447 | the next backoff is double the current one, capped at 30 |
| Backoff.NextInRange | n3fjp-bridge/src/n3fjp_bridge.py:447 | the backoff stays between 2 and 30 and never shrinks on failure |
| Backoff.Delays | n3fjp-bridge/src/n3fjp_bridge.py:301-309 | one sleep per pass, and a pass that had connected sleeps 2 seconds |
| Backoff.DelaysInRange | n3fjp-bridge/src/n3fjp_bridge.py:301-309 | every sleep lasts between 2 and 30 seconds |
| Backoff.RefusedDelays | n3fjp-bridge/src/n3fjp_bridge.py:446-447 | consecutive refusals double the sleep up to 30 |
| Backoff.StartupDelays | n3fjp-bridge/src/n3fjp_bridge.py:301 | from start-up the sleeps are 2, 4, 8, 16, then 30 seconds |
| Backoff.DroppedResets | n3fjp-bridge/src/n3fjp_bridge.py:309 | a connection that succeeded resets the backoff to 2 |
| Config.DefaultsSane | n3fjp-bridge/src/n3fjp_bridge.py:34-46 | the defaults have non-blank host, UDP address, log path and OpenHamClock base |
| Config.DigitsRoundTrip | n3fjp-bridge/src/n3fjp_bridge.py:160 | decimal digits read back to the number written |
| Config.ParseInt | n3fjp-bridge/src/n3fjp_bridge.py:185 | `int()` of a blank text fails |
| Config.ParseDecimalText | n3fjp-bridge/src/n3fjp_bridge.py:160 | `int(str(i))` is `i` |
| Config.StrOf | n3fjp-bridge/src/n3fjp_bridge.py:159 | `str()` keeps a string as it is, and an integer's text reads back as that integer |
| Config.Truthy | n3fjp-bridge/src/n3fjp_bridge.py:169 | `bool()` is false for null and true for every non-empty string, "false" included |
| Config.IntOf | n3fjp-bridge/src/n3fjp_bridge.py:160 | `int()` keeps integers and fails on null and containers |
| Config.IntOfStrOfInt | n3fjp-bridge/src/n3fjp_bridge.py:159-160 | a number in config.json survives `int(str(...))` |
| Config.TextFrom | n3fjp-bridge/src/n3fjp_bridge.py:159 | a non-blank value is taken stripped; a blank one keeps the current value |
| Config.IntFrom | n3fjp-bridge/src/n3fjp_bridge.py:160 | a missing key keeps the current value |
| Config.ApplyFile | n3fjp-bridge/src/n3fjp_bridge.py:149-178 | without a readable object nothing changes; otherwise each setting is taken from its key in order, a port that does not convert stops the phase with the later settings unchanged, and every setting is stated for the case where both ports convert; the settings stay sane |
| Config.ApplyFileStopsAtBadPort | n3fjp-bridge/src/n3fjp_bridge.py:159-160 | a port that does not convert stops the file phase after the host |
| Config.FileHost | n3fjp-bridge/src/n3fjp_bridge.py:159 | a non-blank host in config.json replaces the default, a blank one does not |
| Config.TextEnv | n3fjp-bridge/src/n3fjp_bridge.py:182-183 | a set, non-blank variable is taken stripped; otherwise the current value stays |
| Config.IntEnv | n3fjp-bridge/src/n3fjp_bridge.py:184-190 | an unset or empty variable keeps the current port, and a failure means the variable is set to text `int()` rejects |
| Config.ApplyEnv | n3fjp-bridge/src/n3fjp_bridge.py:181-198 | each variable that is set and non-empty overrides its setting in order, a port that does not convert stops the phase with the later settings unchanged, MYCALL_FALLBACK applies whenever set, and the OpenHamClock settings are never touched; the settings stay sane |
| Config.ApplyEnvStopsAtBadPort | n3fjp-bridge/src/n3fjp_bridge.py:182-185 | a port that does not convert stops the environment phase after the host |
| Config.EnvMyCall | n3fjp-bridge/src/n3fjp_bridge.py:192-193 | MYCALL_FALLBACK is taken whenever it is set, even blank |
| Config.Effective | n3fjp-bridge/src/n3fjp_bridge.py:137-198 | the effective settings are always sane |
| Config.HostPrecedence | n3fjp-bridge/src/n3fjp_bridge.py:159-183 | the environment's host wins over config.json, which wins over the default |
| Config.PortPrecedence | n3fjp-bridge/src/n3fjp_bridge.py:160-185 | a set N3FJP_PORT that converts wins over config.json; an unset one leaves config.json's port |
| Config.OhcFromFileOnly | n3fjp-bridge/src/n3fjp_bridge.py:169-171 | the OpenHamClock settings come from config.json alone |

## Left out

- Sockets are not modelled: the instance guard, TCP connect, `recv` and `sendall`, and UDP `sendto`. They become the `Send` and `Emit` actions and the received chunks.
- A closed connection and other socket errors are not modelled; a connection is a finite list of received chunks.
- Framing.Reframe: cuts the buffer with the corrected `CutAfterLastClose`, not with the bridge's own cut at lines 341-343. Session and everything built on it therefore model the intended cut. The two agree whenever the capped buffer holds no U+0130 (`ReframeAsWrittenAgrees`); the difference is the first row under Findings.
- Session.Feed: does not promise that the split into chunks is irrelevant. A receive that pushes the buffer over 300000 characters drops earlier text, so one chunk and two chunks of the same text can give different events. That is true of the program as well. Only the case without overflow and without a completed block is proved (`SplitWithoutBlock`).
- Qso.Forward: the `Post` action stands for the corrected `Ohc.Post`. In the program, an OpenHamClock address without a scheme raises out of `post_ohc_qso` after the UDP packet went out. That ends the connection, and the bridge reconnects after the backoff sleep (second row under Findings).
- Qso.FreqOf: `parse` gives finite reals only. Python's `float()` also accepts `nan`, `inf` and `1e400`, and the result passes the check at line 398. `int(round(freq_mhz * 100000))` at line 276 then raises before the packet is sent, and the connection ends. The model sends that packet.
- Ohc.HasScheme: does not model urllib's removal of a `URL:` prefix, `<…>` brackets or a `#` fragment before the scheme is looked for.
- UTF-8 decoding of each received chunk is not modelled; chunks are already text.
- The HTTP POST itself is not modelled, and neither is what the server answers. Only the addresses tried and the object posted are modelled.
- Log output is not modelled.
- Reading config.json, the BOM and the JSON parser are not modelled. The file arrives as a `FileResult`: missing, unreadable, or an object of JSON values.
- The environment is not read; it arrives as a map.
- Timestamps are not modelled: the `contactinfo` timestamp and the `ts_utc` member.
- The XML text of the `contactinfo` packet is left out, as is its 10 Hz frequency. A packet is the `Contact` it carries.
- Binary floating point is not modelled. Frequencies are exact reals, and float parsing is the `parse` parameter.
- Tables.BandToMhz: bands are given in tenths of a megahertz (14.0 MHz is 140) rather than as floats; every listed value is such a multiple.
- Ohc.Khz: computed on exact reals, so binary rounding error near a half is not modelled.
- Text.Upper: maps only the ASCII letters. Other letters that Python upper-cases are kept as they are.
- Text.Lower: maps the ASCII letters and U+0130 only.
- Text.MatchAt: case-insensitive matching folds ASCII letters only. Python's `re.IGNORECASE` also matches U+017F (long s) with "s" and U+212A (Kelvin sign) with "k", so `<MODETEſT>` is a MODETEST element to the bridge but not to the model.
- Fields.IsNameChar: `[A-Z0-9_]` under `re.IGNORECASE` also takes U+0130, U+0131, U+017F and U+212A; the model's command names are ASCII.
- Config.ParseInt: accepts optional blanks, a sign and ASCII digits. Python's `int()` also takes digit-group underscores and non-ASCII digits.
- Config.IntOf: a float's text is not re-parsed; it truncates toward zero as `int()` does for finite values. A `Json.Float` holds a finite real, so the NaN, Infinity and out-of-range numbers (such as `1e400`) that Python's `json` accepts are not representable. In the program `int()` raises on them at lines 160 and 163, which stops the file phase after the host (or after the port and UDP address).
- The sleeps between reconnects are durations only; the clock is not modelled.

## Findings

| source | as written | input that shows it | evidently intended | confidence | as-written member | corrected member |
|---|---|---|---|---|---|---|
| n3fjp-bridge/src/n3fjp_bridge.py:341-343 | the position of the last `</cmd>` is found in `buf.lower()` and then used to slice `buf`; each U+0130 before it lowers to two characters, so the cut lands one character too far right per U+0130 | buffer `İ<cmd></cmd><CMD>`: the cut as written leaves `CMD>`, losing the `<` of the pending opener | keep exactly what follows the last case-insensitive `</cmd>` in `buf`, here `<CMD>` | medium, not executed | Framing.CutAsWritten (shown by Framing.CutAsWrittenOvershoots and Framing.CutAsWrittenDropsOpener) | Framing.CutAfterLastClose |
| n3fjp-bridge/src/n3fjp_bridge.py:86 | `urllib.request.Request(url, …)` is built before the `try` at line 91, and it raises ValueError for an address without a scheme | OHC_BASE_URL `ohc.local` with ENABLE_OHC_HTTP on: after the UDP packet, the ValueError escapes `post_ohc_qso` and the receive loop, so the connection is dropped and re-opened after the backoff sleep | build the request inside the `try`, so the failure is logged and the bridge carries on, as the docstring at line 81 says | medium, not executed | Ohc.PostAsWritten (shown by Ohc.PostAsWrittenRaises) | Ohc.Post (proved by Ohc.PostAgrees) |
