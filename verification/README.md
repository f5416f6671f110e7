# Verified model of the Rocket League stats client

The repository reads a stream of JSON events from a game, prepares the game's INI file, translates the
events for overlays, and relays or broadcasts the translations over websockets. This project models the
parts with the most state and branching, and proves what they are relied on for.

| file | models |
|---|---|
| JsonScanner.dfy, JsonGrammar.dfy | the incremental JSON scanner behind the client, and RFC 8259 as a grammar of trees and their spellings, to judge the scanner by |
| JsonTails.dfy, JsonPrefixes.dfy | what the scanner makes of the beginnings and the ends of documents, and when it is right to ask for more |
| StatsClient.dfy | the client's read buffer: framing of documents, reconnecting, errors |
| Cuts.dfy | exactly which streams come apart the same way however they are cut into reads |
| Outcomes.dfy | which outcome a call has, judged by the bytes alone |
| Text.dfy, Decimal.dfy, Sequences.dfy | trimming, comparing without case, decimal numerals, appending |
| Ini.dfy, IniLaws.dfy | the INI editor, and its laws on the key and value view of a file |
| Rate.dfy, Connection.dfy | printing and reading packet rates, and the connection policy over an INI file |
| Xorshift.dfy, MockMatch.dfy, MockGenerator.dfy | the random generator, a tick and a run of ticks of the mock match, and the stateful object that performs them |
| BroadcastServer.dfy | the broadcast server as interleaved steps of the relay loop, the accept loop and the client handlers over a bounded channel |
| Relay.dfy | the relay loop with its send and connect retries over a network that may fail any attempt |
| Json.dfy, Codec.dfy, Events.dfy | JSON values, the derived record codec driven by record descriptions, and event envelopes with all their records |
| Commands.dfy | commands to the game: validation, printing, reading |
| Sos.dfy | player ids, the players map and the two teams of the overlay format |
| Filters.dfy | the player tracker that reports changes only |

Where the source updates state, the model does: the client, the INI file, the mock generator and the tracker
are classes, and loops are loops. Each such method is tied to a function by its contract, and the laws are
proved of the functions. What the outside decides (what a read yields, which sends fail, how tasks interleave,
which numbers are drawn) is a parameter that every statement quantifies over.

Some results about the code that its documentation does not mention:

- How a stream is cut into reads can be seen exactly if it is not safe for the decoder in use (`CutsDoNotMatter`). For
  the documents themselves this means: exactly if a bare number or word stands at the top level that has more than one
  digit, or that runs into bytes which do not end it (`DocumentsDoNotDepend`). The number 12 is such a case for every
  decoder (`CutsMatterForNumbers`). A decoder that refuses numbers, as the client's does, hides some other cases
  (`MaskedNumber`).
- A verdict on an object is given exactly when it is right (`VerdictIsRight`), but for one case: a string that breaks off
  in a `\u` with a byte behind it that is no hexadecimal digit asks for more, though nothing can complete it
  (`StuckExample`).
- Editing an INI file twice with the same key and value keeps its entries but need not keep its text. It keeps the text
  exactly if no line in front of another ends in a carriage return, lines that set the key aside, and the last line is
  not blank where the key is there already (`TextStays`). `UpsertAgainShortens` has one family of texts that change.
- With the "only when zero" policy a second run writes the file again exactly when the rate was written and prints as 0
  (`SecondRunIsQuiet`); `SecondRunKeepsText` says when the text stays the same even then.
- The generator is stuck at seed 0 and only there (`ZeroIsIsolated`); nothing keeps a start time from giving that seed.
- An unknown event whose data are a JSON string after one unwrapping does not come back from its printed form
  (`EventIsStable`, with such an event in `StringDataIsRefused`).
- A player and a reference to that player get different ids when a collected `shortcut` member contradicts the field,
  since the two read them in opposite order (`RefAgrees`, with such a player in `RefDisagrees`).

## Model

| member | source | states |
|---|---|---|
| JsonScanner.DocumentGrows | src/client.rs:112-125 | an outcome of the deserialiser on the bytes received so far is final: more bytes change neither a complete document and its end nor a syntax error, unless the document is a bare number or word |
| JsonGrammar.ValueSound | src/client.rs:116-120 | what the scanner accepts up to some offset is the spelling of a value of the grammar of RFC 8259 |
| JsonGrammar.ValueComplete | src/client.rs:116-120 | every spelling of a value is accepted, with exactly its length consumed |
| JsonGrammar.ObjectDocuments | src/client.rs:116-120 | a text that starts with a brace is one complete document exactly if it is an object of the grammar |
| JsonGrammar.BadIsHopeless | src/client.rs:122-123 | a syntax error is reported only where no continuation could make an object of the bytes |
| JsonScanner.ByteClasses | src/client.rs:112-114 | which bytes are white space, digits, escapes and plain in strings |
| JsonPrefixes.VerdictIsRight | src/client.rs:112-124 | on bytes that start with a brace: complete exactly if an object is in front; asking for more exactly if some continuation makes an object, or they are stuck in an impossible escape; a syntax error exactly if neither |
| JsonPrefixes.IncompleteBegins | src/client.rs:122 | input that asks for more and is not stuck can be completed to an object |
| JsonPrefixes.StuckIsHopeless | src/client.rs:122 | stuck input asks for more, and nothing makes an object of it |
| JsonPrefixes.StuckExample | src/client.rs:122 | such an input |
| StatsClient.RocketLeagueStatsClient.Connect | src/client.rs:24-34 | a new client has an empty buffer and has received nothing |
| StatsClient.RocketLeagueStatsClient.Reconnect | src/client.rs:63-69 | a successful reconnect empties the buffer and starts afresh; a failed one changes nothing |
| StatsClient.RocketLeagueStatsClient.DiscardLeadingWhitespace | src/client.rs:103-106 | exactly the ASCII white space in front is dropped, form feed included; what was drained and the buffer still make up what was received |
| StatsClient.RocketLeagueStatsClient.TryParseEventFromBuffer | src/client.rs:103-126 | the three outcomes, with exactly the bytes of a complete document drained and the rest kept |
| StatsClient.RocketLeagueStatsClient.NextEvent | src/client.rs:71-85 | outcome, buffer and remaining reads are those of the specification, drained bytes only grow, and no byte is lost or made up |
| StatsClient.TryParseTwice | src/client.rs:81-83 | the second parse attempt at the end of the stream finds nothing the first did not |
| StatsClient.SpacesAreDropped | src/client.rs:103-106 | exactly five bytes are dropped in front of a document, form feed among them |
| StatsClient.SyntaxErrorStays | src/client.rs:122-123 | after a syntax error every call gives it again and reads nothing |
| JsonTails.VerdictGrows | src/client.rs:112-123 | a syntax error is final, and so is a document that ends before the bytes in hand do |
| JsonTails.DocumentIsThere | src/client.rs:112-118 | a document is found as soon as its last byte is in the buffer |
| JsonTails.TakenForWhole | src/client.rs:112-118 | a beginning is taken for the whole only at a bare value, and then ends where the bytes in hand end |
| JsonTails.TailOfDocument | src/client.rs:112-118 | what is then left is a syntax error, or a document that ends where the whole one does |
| Cuts.NextIsPull | src/client.rs:71-85 | a call yields what it would yield were all bytes to come in the buffer already, and leaves the same bytes, or nothing but a syntax error either way |
| Cuts.CutsDoNotMatter | src/client.rs:71-126 | for every decoder, outcomes call by call are the same for all cuts of a stream exactly if the stream is safe for that decoder |
| Cuts.NoReadMisleads | src/client.rs:112-118 | no end of a read can mislead at a document exactly if it is undivided: no bare value, or a word or single digit that is over |
| Cuts.DocumentsDoNotDepend | src/client.rs:71-126 | the documents of a stream are the same for all cuts exactly if all of them are undivided |
| Cuts.SafeForAll | src/client.rs:71-126 | such a stream is safe for every decoder |
| Cuts.ObjectsAreDelivered | src/client.rs:71-126 | a stream of JSON objects with white space around them, however cut, is delivered as exactly these objects in order, a bad envelope taking one call of its own; then comes the end |
| Cuts.CutsMatterForNumbers | src/client.rs:112-118 | a stream of one bare number that two cuts take apart differently, whatever the decoder |
| Cuts.MaskedNumber | src/client.rs:112-120 | a divided number that no cut shows to a decoder which makes the same of its first digit |
| Outcomes.NextIsRight | src/client.rs:71-126 | for all cuts, a call on bytes that start with a brace yields the object in front, or the error of its envelope; a syntax error exactly if nothing can make an object of them; and no event exactly if something can, stuck input aside |
| Outcomes.ErrorAtOnce | src/client.rs:71-85 | a syntax error is reported as soon as it shows, and takes no later read |
| Outcomes.NextGoesOn | src/client.rs:71-85 | a call that some reads settle does not touch the later ones, and one they do not settle goes on with those |
| Outcomes.FailedRead | src/client.rs:79-80 | a failed read is reported by the call that cannot do without it, and loses neither bytes nor later reads |
| Text.TrimDropsLast | src/config.rs:307-309 | white space at the end of a line makes no difference to its trimmed text |
| Text.AllSpaceTrims | src/sos.rs:411 | nothing is left of a trimmed text exactly if it is all white space |
| Text.WhiteSpaceIs | src/config.rs:307-309 | the code points that are white space |
| Text.EqInCapitals | src/config.rs:271 | texts are equal without case exactly if they are equal with all letters made capital |
| Ini.FindStringValue | src/config.rs:268-277 | the loop finds the value of the first line that sets the key |
| Ini.UpsertKey | src/config.rs:279-304 | the loop rewrites every line that sets the key, keeps all others, and appends the key if there was none |
| Ini.LinesOfJoin | src/config.rs:303 | splitting joined lines gives the lines back except for carriage returns at their ends and a blank last line |
| Ini.NormalKeeps | src/config.rs:303 | what a line loses by being joined and split again |
| IniLaws.UpsertPuts | src/config.rs:279-304 | the entries of the edited text are those of the text before with the key put in |
| IniLaws.FindAfterUpsert | src/config.rs:268-304 | the key written reads as written; every key that differs from it ignoring case reads as before |
| IniLaws.ReadBack | src/config.rs:268-304 | a value is read back from any text it is written to exactly if key and value are clean (trimmed, on one line, no equals sign in the key, no comment or section start) |
| IniLaws.OtherLinesStay | src/config.rs:283-303 | a line that does not set the key keeps its place and its content up to a trailing carriage return; only a blank last line can go |
| IniLaws.SettingLinesChange | src/config.rs:284-290 | a line that sets the key keeps its place and its indent and says the new value |
| IniLaws.AppendedAtEnd | src/config.rs:294-301 | a missing key goes on a line of its own at the end, behind one blank line unless there is one or nothing |
| IniLaws.FoundIsFirst | src/config.rs:268-277 | the value found is that of the first line that sets the key |
| IniLaws.NoneIsFound | src/config.rs:268-277 | none is found exactly if no line sets it |
| IniLaws.UpsertAgain | src/config.rs:279-304 | writing the same again changes no value of any key |
| IniLaws.SecondEdit | src/config.rs:279-304 | the second of two equal edits does to the text just what joining the lines and splitting them again does |
| IniLaws.TextStays | src/config.rs:279-304 | writing the same again leaves the text as it is exactly under a condition on the lines of the text before |
| IniLaws.UpsertAgainShortens | src/config.rs:283-303 | one family of texts that each edit shortens by one blank line |
| Decimal.PrintValue | src/config.rs:72 | digits printed for a number stand for that number |
| Decimal.ParsePrinted | src/config.rs:264-266 | a printed number is read back exactly if it fits the type |
| Decimal.PlusAndZeros | src/config.rs:264-266 | a plus sign and zeros in front of digits make no difference; a minus sign or nothing is no number |
| Rate.Clamp | src/config.rs:241-243 | a clamped rate is within bounds or NaN, and clamping changes only rates outside |
| Rate.FormatRate | src/config.rs:245-258 | popping zeros and the point off three decimals leaves the shortest form; integer zeros survive |
| Rate.SignInFront | src/config.rs:260-262 | a minus sign in front of a number makes it negative, a plus sign nothing |
| Rate.ParseNames | src/config.rs:260-262 | the names of the values that are no numbers, in any case and with signs |
| Rate.ParseShifted | src/config.rs:260-262 | an exponent shifts the point either way |
| Rate.ParseFormatted | src/config.rs:245-262 | what is printed is read back as the rate rounded to thousandths, NaN as NaN |
| Rate.WholeThousandths | src/config.rs:245-262 | a rate in whole thousandths up to the maximum is read back exactly |
| Rate.FormattedEnds | src/config.rs:247-252 | no trailing point and no zero at the end of a fraction remain |
| Connection.PrepareConnectionConfig | src/config.rs:54-125 | result and file are those of the policy's specification; a port conflict leaves the edits in the file |
| Connection.OtherKeysStay | src/config.rs:66-102 | every key other than the port and the rate reads after a run as before it |
| Connection.PortIsInFile | src/config.rs:58-75 | without an override the returned port is the one in the file and not 0; with one the file's is left alone |
| Connection.RateInFile | src/config.rs:77-106 | the rate in the file afterwards is the requested one if it was to be written, and else the one before |
| Connection.ReturnedConfig | src/config.rs:57-124 | in terms of the options and the text before: the ports, the rate and the flag returned, and that the port conflict is exactly two equal ports with the web port on |
| Connection.RateIsInFile | src/config.rs:104-106 | the rate returned is the clamped one of the file after the run, if it has one; without the flag the file is as before |
| Connection.ReturnedWithoutFile | src/config.rs:57-124 | the same when there is no file |
| Connection.SecondRunAgrees | src/config.rs:54-125 | under every policy a second run gives the same ports and rate or the same port conflict |
| Connection.SecondRunIsQuiet | src/config.rs:77-102 | a second run writes exactly if the rate is written every time, or was not positive and is written as 0; when it does not write, the file is a fixed point |
| Connection.SecondRunKeepsText | src/config.rs:54-111 | when a second run does write, the text stays the same exactly if it settles as the rate is written to it |
| Xorshift.StepIsBijection | src/bin/mock_broadcast.rs:141-147 | the generator's step is a bijection on 64-bit words, with the inverse given |
| Xorshift.SeedsStayApart | src/bin/mock_broadcast.rs:141-147 | different seeds never meet after any number of draws |
| Xorshift.ZeroIsIsolated | src/bin/mock_broadcast.rs:141-147 | the state is 0 after any number of draws exactly if the seed is |
| Xorshift.OutputIsBijection | src/bin/mock_broadcast.rs:148 | every 64-bit number is drawn from exactly one state |
| MockMatch.WindowIsDistinct | src/bin/mock_broadcast.rs:195-199 | the players of a window no longer than the pool are distinct wherever it starts |
| MockMatch.WindowSize | src/bin/mock_broadcast.rs:195-199 | it holds exactly as many players as it has places |
| MockMatch.CacheIsLatest | src/bin/mock_broadcast.rs:266-269 | over every run the cache holds, for exactly the players seen, the payload of the latest active tick |
| MockMatch.LatestIsLatest | src/bin/mock_broadcast.rs:266-269 | that latest payload, characterised by the ticks of the run |
| MockMatch.SentPlayers | src/bin/mock_broadcast.rs:272-285 | every update shows exactly the players of that cache, at most as many as the pool has; the two-level lookup equals the cache alone |
| MockMatch.PlayersStay | src/bin/mock_broadcast.rs:272-285 | once shown, a player stays shown |
| MockMatch.ShownAsThemselves | src/bin/mock_broadcast.rs:216-253 | whenever shown, a player has its own name, ids, shortcut and team |
| MockMatch.ClockAndScores | src/bin/mock_broadcast.rs:177-190 | the clock stays in 0..300 and scores are bounded by the age of the match, which never passes 301 ticks |
| MockMatch.ClockRunsDown | src/bin/mock_broadcast.rs:177-183 | each tick takes what is drawn off the clock, or starts it over at 300 |
| MockMatch.ScoresRise | src/bin/mock_broadcast.rs:177-190 | a score stays or rises by one, from what it was or from 0 in a new match; saturation is out of reach |
| MockMatch.WinnerExcludesOvertime | src/bin/mock_broadcast.rs:287-309 | winner and overtime flags are never both set, one of them is exactly when the clock is 0, and the winner is the team ahead |
| MockMatch.ResetGap | src/bin/mock_broadcast.rs:177-183 | between two starts of a match there are at least 101 and at most 301 ticks |
| MockMatch.FirstReset | src/bin/mock_broadcast.rs:177-183 | so there are before the first |
| MockMatch.ResetsComeBack | src/bin/mock_broadcast.rs:177-183 | no 301 ticks go by without a new match |
| MockGenerator.UpdateStateRandomizer.NextU64 | src/bin/mock_broadcast.rs:141-149 | a draw moves the state by one step and returns its scrambled form |
| MockGenerator.UpdateStateRandomizer.RangeU64 | src/bin/mock_broadcast.rs:151-157 | the draw is within bounds, uses exactly one step or none, and is the remainder the source takes |
| MockGenerator.UpdateStateRandomizer.RangeI64 | src/bin/mock_broadcast.rs:159-165 | the same for signed bounds |
| MockGenerator.UpdateStateRandomizer.Chance | src/bin/mock_broadcast.rs:167-172 | never with denominator 0 and then without a draw; certain or impossible at the ends |
| MockGenerator.UpdateStateRandomizer.ActiveIds | src/bin/mock_broadcast.rs:195-199 | the loop collects the window |
| MockGenerator.UpdateStateRandomizer.ChooseAttacker | src/bin/mock_broadcast.rs:204-214 | the attacker is nobody, or another active player, never the player itself |
| MockGenerator.UpdateStateRandomizer.RandomPayload | src/bin/mock_broadcast.rs:233-264 | the payload shows the player's identity and all its numbers are in range |
| MockGenerator.UpdateStateRandomizer.PlayActive | src/bin/mock_broadcast.rs:203-270 | exactly the active players get new payloads, and they are recorded as seen and in the cache |
| MockGenerator.UpdateStateRandomizer.PlayerMap | src/bin/mock_broadcast.rs:272-285 | the loop over the pool gives each player seen the active payload, or else the last one |
| MockGenerator.UpdateStateRandomizer.AdvanceClock | src/bin/mock_broadcast.rs:177-190 | the new clock and scores for what was drawn |
| MockGenerator.UpdateStateRandomizer.NextUpdateStatePayload | src/bin/mock_broadcast.rs:174-341 | one update is one tick of the match for some possible draws |
| MockGenerator.Generate | src/bin/mock_broadcast.rs:357-368 | from any seed, any number of updates are those of a run of ticks, so the statements about runs hold of them |
| BroadcastServer.StepKeeps | src/bin/sos_broadcast.rs:133-349 | every step keeps the invariant over channel, cursors, counter, limit and shutdown flag |
| BroadcastServer.ClientCountIsExact | src/bin/sos_broadcast.rs:277-349 | in every interleaving the counter is the number of handlers past their handshake and not finished, is positive before each decrement, and 0 once all have left |
| BroadcastServer.RelayedIsBounded | src/bin/sos_broadcast.rs:145-197 | the count of relayed payloads is exact and never exceeds the larger of 1 and the limit; a stopped loop has raised the flag |
| BroadcastServer.StopsAtLimit | src/bin/sos_broadcast.rs:149-197 | the relay loop goes on until it has relayed exactly the limit, unless a signal or a failure ends it; without a limit only those do |
| BroadcastServer.NothingAfterSignal | src/bin/sos_broadcast.rs:151-155 | a signal or a failure begins the shutdown, and nothing more is relayed |
| BroadcastServer.OfferedIsTranslated | src/bin/sos_broadcast.rs:159-186 | what has been offered to the channel is a beginning of the translations that arrived, and with what is due all of them while the loop runs |
| BroadcastServer.ClientGetsInOrder | src/bin/sos_broadcast.rs:242-311 | a client is sent, in order and each at most once, payloads offered after it subscribed, and the first ones without a gap unless its cursor jumped |
| BroadcastServer.LagNeedsBacklog | src/bin/sos_broadcast.rs:307-312 | each jump of a client's cursor is made by one lag step of its own, at which the client is more than 1024 payloads behind |
| BroadcastServer.GapsAreLags | src/bin/sos_broadcast.rs:242-312 | the positions of what a client has been sent are consecutive but for these jumps, with at most the last one missing after it has left |
| BroadcastServer.GapsNeedBacklog | src/bin/sos_broadcast.rs:242-312 | what a client has been sent is an unbroken run, or at some step of the run it lagged, being more than 1024 payloads behind |
| BroadcastServer.ClientsAreKept | src/bin/sos_broadcast.rs:277-341 | a client is let go only after its own handshake or connection has failed or been closed, or after shutdown has begun |
| BroadcastServer.NothingAfterTheEnd | src/bin/sos_broadcast.rs:293-343 | and then it is sent nothing more |
| BroadcastServer.AcceptsUntilShutdown | src/bin/sos_broadcast.rs:213-232 | the accept loop goes on until shutdown has begun, and the relay loop waits for it unless a failure cuts it short |
| BroadcastServer.ShutdownCanFinish | src/bin/sos_broadcast.rs:151-216 | from every reachable state of shutdown the server can come to an end with all handlers gone and the counter at 0 |
| Relay.ConnectWsWithRetry | src/bin/sos_relay.rs:254-291 | attempts go on to the first success |
| Relay.SendEnvelopeWithRetry | src/bin/sos_relay.rs:293-324 | a failed send is followed by a new websocket and another attempt with the same payload |
| Relay.ReconnectRlWithBackoff | src/bin/sos_relay.rs:213-252 | at most ten attempts |
| Relay.ReconnectTries | src/bin/sos_relay.rs:219-251 | reconnecting makes just as many attempts as it may, all of which fail, or fewer of which only the last succeeds |
| Relay.GivesUpAfterTen | src/bin/sos_relay.rs:213-252 | a run gives up on the game only after ten attempts in a row have failed |
| Relay.ReconnectsForEachBreak | src/bin/sos_relay.rs:168-175 | the game is reconnected to exactly once for each lost connection that the run gets past |
| Relay.AttemptsAreOrderly | src/bin/sos_relay.rs:133-324 | over every run, a failed send is followed by dialling a new websocket until that succeeds, and then by the same payload on it; no websocket is dialled otherwise; the acknowledgements are the successful sends |
| Relay.AckedAfterDial | src/bin/sos_relay.rs:317-320 | what comes right before a send has succeeded on the same websocket, and if it was dialling a new one, it was for this payload |
| Relay.SendEnvelopes | src/bin/sos_relay.rs:145-166 | the payloads of one event, counted, up to the limit |
| Relay.RunRelay | src/bin/sos_relay.rs:133-178 | the loop over arrivals does what the specification says of a run |
| Relay.SentOnce | src/bin/sos_relay.rs:293-324 | a payload is acknowledged exactly once, or the run is cut off and it is not |
| Relay.AckedIsPrefix | src/bin/sos_relay.rs:133-178 | whatever fails, the acknowledged payloads are a beginning of the translations in event order, by strictly later successful attempts of an orderly course, on websockets never gone back to; `relayed` counts them and never exceeds the larger of 1 and the limit |
| Relay.NothingLeftBehind | src/bin/sos_relay.rs:133-178 | a run ended by a signal has acknowledged all translations before it, and a waiting one all |
| Relay.NetworkDoesNotMatter | src/bin/sos_relay.rs:133-178 | two runs over the same arrivals that end in the same way, other than cut off or by a failed reconnect, have relayed the same |
| Codec.ParsedIsFaithful | src/events.rs:252-550 | what parses has its type, finite floats, and no collected member called like a field |
| Codec.ParsePrinted | src/events.rs:252-550 | parsing undoes printing for such values, for every record type |
| Codec.RoundTrip | src/events.rs:252-550 | a value comes back exactly if it is such |
| Codec.ParseIsStable | src/events.rs:252-550 | what was parsed once comes back from its printed form |
| Codec.PrintCompletes | src/events.rs:252-550 | printing what was parsed gives the JSON that was parsed with missing fields filled in; all members without a field are unchanged in records that collect them |
| Codec.ParseAccepts | src/events.rs:252-550 | a record accepts exactly the JSON that conforms to it: missing fields with a default, null for optional ones, any number for a float |
| Codec.ParsedReads | src/events.rs:252-550 | and reads just what the JSON says, with what is missing empty or zero |
| Events.SpellingsAgree | src/events.rs:9-14 | each key may be spelled with a capital or without, beside any other members |
| Events.GameSpelling | src/events.rs:9-14 | the game's own spelling parses like the printed one |
| Events.MessagesAreAccepted | src/events.rs:172-250 | a message is accepted exactly if it has one spelling of each key, a string for a name, and data that are JSON text if a string and conform to the event's record if there is one |
| Events.GoalNeedsLocation | src/events.rs:362-380 | a goal without its location is refused |
| Events.CrossbarNeedsLocation | src/events.rs:346-360 | so is a crossbar hit without the ball's |
| Events.BallNeedsLocation | src/events.rs:292-314 | and a hit whose ball has none |
| Events.GoalRecord | src/events.rs:204 | goals are read by that record |
| Events.CrossbarRecord | src/events.rs:194 | and crossbar hits by theirs |
| Events.BallRecord | src/events.rs:186 | and ball hits by theirs |
| Events.AliasesLand | src/events.rs:195-203 | the three short replay names are accepted like the long ones, and are known by those afterwards |
| Events.ParsedIsEvent | src/events.rs:172-240 | what is accepted is an event of the type the name calls for, under its canonical name |
| Events.TypedComesBack | src/events.rs:90-240 | a known event comes back exactly if its data are faithful |
| Events.UnknownComesBack | src/events.rs:160-165 | an unknown event comes back exactly if its data are not a string |
| Events.EventIsStable | src/events.rs:90-250 | every parsed event comes back from its printed form, except unknown ones whose data are still a string, which do not |
| Events.StringDataIsRefused | src/events.rs:160-250 | an event with such data that is accepted and whose printed form is not |
| Events.AliasesAgree | src/events.rs:195-203 | an alias parses like the canonical name |
| Events.DataIsKept | src/events.rs:90-250 | parsing and printing completes the data of a known event and keeps those of an unknown one |
| Commands.ToValue | src/commands.rs:157-206 | filling the data member by member gives the wire form, or the validation error |
| Commands.FocusAccepts | src/commands.rs:59-67 | a focus is read from exactly `Ball` and non-empty digits below 2^32, leading zeros included |
| Commands.FocusComesBack | src/commands.rs:52-67 | a printed focus is read back |
| Commands.FocusTextComesBack | src/commands.rs:52-67 | a text comes back exactly if it has no needless zeros in front |
| Commands.PerspectiveComesBack | src/commands.rs:26-41 | a perspective's name finds it |
| Commands.CommandComesBack | src/commands.rs:157-295 | a valid command comes back with empty replay strings absent |
| Commands.ComesBackExactly | src/commands.rs:171-178 | it comes back as it was exactly if it has no empty replay string |
| Commands.ValidIsSensible | src/commands.rs:120-155 | valid are exactly the commands that say what to do, with amounts finite and not negative |
| Commands.ReadsWhatItSays | src/commands.rs:213-334 | a command is read from JSON exactly if the JSON says it and it makes sense |
| Commands.PrintsWhatItSays | src/commands.rs:157-206 | and is printed as JSON that says it, empty replay strings aside |
| Commands.InvalidIsRejected | src/commands.rs:120-295 | printing and reading both succeed exactly for valid commands |
| Commands.ReadIsStable | src/commands.rs:213-295 | whatever is read is valid, and printing and reading it again settles at once |
| Sos.SameId | src/sos.rs:410-416 | ids are equal exactly for two blank names or for the same name and shortcut, underscores in names included |
| Sos.CollectedShortcut | src/sos.rs:497-505 | a collected shortcut is read under the capital key first |
| Sos.NumbersAreRead | src/sos.rs:497-505 | a number is read as itself, and so is its text |
| Sos.ShortcutsAre | src/sos.rs:282-285 | a player's own field comes before a collected shortcut, and for a reference after it |
| Sos.BlankIds | src/sos.rs:410-416 | the id is empty exactly for names that are all white space, and otherwise the name, an underscore and the shortcut |
| Sos.RefFinds | src/sos.rs:368-372 | a reference has a player's id exactly if it has the name and shortcut, or neither has a name |
| Sos.RefAgrees | src/sos.rs:280-286 | when the same members give a player and a reference the same id |
| Sos.RefDisagrees | src/sos.rs:397-408 | members that give them different ones |
| Sos.IdCount | src/sos.rs:277-325 | there are as many ids as distinct pairs of a name and a shortcut, plus one if any name is blank |
| Sos.EntriesAre | src/sos.rs:277-325 | one entry for each of them, holding the last such player, with the key as its id |
| Sos.EntryShows | src/sos.rs:295-319 | an entry shows the player's name, its own shortcut and its other values |
| Sos.TranslatePlayers | src/sos.rs:277-325 | the loop builds these entries |
| Sos.LastTeamIs | src/sos.rs:328-336 | the team taken for a number is the last one that has it |
| Sos.TeamsShow | src/sos.rs:338-363 | an entry shows what that team has, and the default of its side for each thing it lacks |
| Sos.NoTeamShows | src/sos.rs:354-361 | without such a team it shows the defaults |
| Sos.TranslateTeams | src/sos.rs:327-366 | always two entries, by number, with defaults for what is missing |
| Filters.CollapsedIs | src/filters.rs:233-236 | collapsing keeps first and last, keeps all values, and leaves no equal neighbours |
| Filters.ShownIsFirst | src/filters.rs:226-232 | the player shown is the first whose name is the tracked one in capitals, with its own name and values |
| Filters.CaseMakesNoDifference | src/filters.rs:226-230 | trackers for names that differ in case only see the same |
| Filters.PlayerTracker.UpdateFromEvent | src/filters.rs:218-237 | the latest snapshot and the one returned, if it changed; an event without the player changes and returns nothing |
| Filters.Track | src/filters.rs:206-238 | over any run of events, the snapshots returned are the player's with equal neighbours collapsed, and the latest is their last |

## Left out

- JsonScanner.DocumentGrows: does not model numbers out of range, nesting too deep, invalid UTF-8 and lone surrogates as errors, since whether a range error shows can depend on where a read ends.
- StatsClient.RocketLeagueStatsClient.NextEvent: the typed event behind a document is a parameter, so framing is proved for every decoder.
- Duplicate keys of a JSON object, and records given as lists of their fields, are not modelled.
- Rate.ParseFormatted: rates are reals; rounding to 32 bits and negative zero are not modelled.
- Codec.RoundTrip: large integers given for floats are converted exactly, without the rounding of a 64-bit float.
- Events.EventIsStable: parsing JSON text is a parameter, of which only is used that a JSON text is longer than the string it denotes.
- Ini.UpsertKey: for a line indented with white space beyond ASCII the source slices bytes by a count of characters, which can split one; the model slices characters.
- Connection.PrepareConnectionConfig: the file exists and can be read and written; creating it from the template, paths, environment lookup and I/O errors are left out.
- MockGenerator.UpdateStateRandomizer.RangeU64: spans of the full 64 bits, for which the source's addition overflows, are excluded.
- Sockets, TLS, timers, signals and the runtime appear as what they let happen: a read yields bytes, an error or the end; an attempt succeeds or fails; tasks take steps in any order.
- BroadcastServer.ShutdownCanFinish: says that an end can be reached, not that a scheduler reaches it.
- Relay.RunRelay: a run may be cut off after any attempt; whether retrying ever succeeds is not claimed. A send that fails may still have arrived; only acknowledged sends are counted.
- Sos.TranslatePlayers: members copied from the player as they are, and the nested lookups of speed and boost, are one value.
- Filters.Track: the values a snapshot keeps are one value compared with equality, so a speed that is NaN is not covered.
- Event filters, the mapping of events to overlay envelopes, statfeed names, locations, the two-event countdown, and other finite tables, which would add only easy members.
- `build_ws_target`, command lines, the desktop interface, the console helpers, the Python bindings, and the board and printing programs.
