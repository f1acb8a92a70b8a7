# Tazdingo: shields, reinforcements and prey tracks

Tazdingo is a Discord bot for a clan. Its members can do three things:

- announce a **shield** (`$shield 8h`), which lasts a given time;
- announce that they **reinforce** (`$rein`);
- **track** a prey (`$track <who> [<x>,<y>] [<tiers>]`).

A background loop alerts the channel at two points. It sends "almost expired" when a shield has under an hour left, and "expired" once it runs out. For each tracked prey it also announces when the prey's 4, 8, 12 and 24 hour marks pass. This project models the core of the bot:

- the duration syntax of `$shield` (`parse_time`);
- the duration formatting used in listings (`get_human_time`);
- the in-memory state (`TazdingoPoach`) and the handlers that change or query it;
- one round of the background alert loop.

Files:

- `wrappers.dfy`: `Option`.
- `numerals.dfy`: decimal digit strings, their value (`Value`) and the canonical spelling of a number (`Show`).
- `parse_time.dfy`:
  - `TimeParser` — `ParseTime`, with the complex regular expression written as a deterministic scanner over four slots (days, hours, minutes, seconds). Each slot holds an optional field `<digits><spaces><unit>` followed by whitespace. The simple expression, a bare count of hours, is the fallback.
  - `TimeParserProperties` — the scanner is complete and sound for canonical spellings. It also holds the meaning of `ParseTime` as an if-and-only-if, the examples of the test suite, and the refusal rules.
- `human_time.dfy`:
  - `TimeFormat` — the formatting as a specification function `HumanTime`, and the imperative `GetHumanTime` that mirrors the `//` and `%=` steps and is proved equal to it.
  - `TimeFormatProperties` — the decomposition is unique, and `ParseTime(HumanTime(t)) == Some(t)` for every `t > 0`.
- `records.dfy`: the stored records, from data/models.py.
- `expiry.dfy`:
  - `Expiry` — the timing rules as pure functions: one step of a shield, one step of a prey (tier cascade 24/12/8/4), the next deadline of `$tracks`, a sorting function, and the records the handlers create.
  - `ExpiryProperties` — what these rules promise over several ticks.
- `tazdingo.dfy`: class `Poach` (the three maps), class `Commands` (the handlers) and class `Client` (`Tick`, one round of `notify_shield_state`). Each handler is stated as the exact new state of the maps. The tick is proved equal to the pure `TickShields`/`TickPreys`, and its alert lists are proved to be exactly the alerted users and preys, each once.

Times are whole seconds since 1970-01-01 00:00:00 UTC (`int`) and user ids are `int`. A reply is an `ok` result: `true` for the robot-face reaction (`_ack`), `false` for the cross mark (`_error`). `$shield` replies with a `Reaction` instead, since it can also raise and leave no reaction. The clock (`timezone.now()`) is a parameter `now`.

Some behaviour of the code is easy to miss, and the model keeps it:

- **Unit spelling.** Units are matched case-sensitively. Only the one-letter units have an upper-case form (`2D` is accepted, `2Day` is refused).
- **Leading whitespace.** Whitespace may not come before the days number (` 1d` is refused, ` 1h` is accepted).
- **Whitespace-only input.** A token of whitespace only parses to 0.
- **Trailing newline.** `\d+$` also accepts a single trailing newline (`10\n` is 10 hours).
- **`$track` refusal.** `$track` is refused exactly when the requested tiers contain none of 4, 8, 12 and 24.
- **New shield flags.** A new shield shorter than an hour starts with its "almost expired" flag already set.
- **Calendar overflow.** A `$shield` whose expiry falls after 9999-12-31 23:59:59 UTC (`$shield 100000000`, say) raises OverflowError in `_on_shield` before any change, so nothing changes and no reaction is sent.

## Model

| member | source | states |
|---|---|---|
| Numerals.Value | utils.py:48 | the number `int()` reads from a digit string, most significant digit first; it is 0 exactly when every digit is 0 |
| Numerals.Show | utils.py:25 | the decimal spelling of n is a non-empty digit string whose value is n, with no leading zero unless n is 0 |
| TimeParser.ScanField | utils.py:5 | a field read from the input is digits, whitespace and a unit of the slot's group, and the text read plus the rest is the input |
| TimeParser.ReadSlot | utils.py:5 | one optional group of the complex expression: the field read plus the rest is the input; an absent field consumes nothing |
| TimeParser.Canonical | utils.py:5 | defines the language of the complex expression: slots for days, hours, minutes and seconds in that order, each an optional field of its own units, separated only by whitespace, with no whitespace before the days field |
| TimeParser.Total | utils.py:47-49 | defines the seconds a spelling stands for: each present field's count times 86400, 3600, 60 or 1, with absent groups counting 0 |
| TimeParser.IsSimple | utils.py:6 | defines the simple expression `^\d+$`: one or more digits, where `$` also matches before one final newline |
| TimeParser.SimpleDigits | utils.py:51-54 | the digits the simple expression captures are a non-empty digit string, the whole token or the token without its final newline |
| TimeParser.ParseTime | utils.py:42-55 | the empty token is refused, and a result is only ever read by one of the two expressions; `ParseTimeMeaning` states exactly which result |
| TimeParser.ScanSlots | utils.py:5 | whatever the scanner returns is a canonical spelling whose text is exactly the input (soundness) |
| TimeParserProperties.ScanSlotsComplete | utils.py:5 | every canonical spelling is found by the scanner, and is the only one found (completeness, uniqueness) |
| TimeParserProperties.SimpleNotComplex | utils.py:5-6 | a bare digit string never matches the complex expression, so the simple branch decides it |
| TimeParserProperties.ParseSpelling | utils.py:44-49 | a non-empty canonical spelling parses to days*86400 + hours*3600 + minutes*60 + seconds |
| TimeParserProperties.ParseTimeMeaning | utils.py:42-55 | ParseTime(s) == Some(n) exactly when s is non-empty and either spells fields adding up to n, or is a bare count of n/3600 hours |
| TimeParserProperties.WhitespaceOnly | utils.py:5 | a non-empty whitespace-only token parses to 0 seconds |
| TimeParserProperties.SingleField | utils.py:5 | a lone field with a unit of group k parses to its value times 86400, 3600, 60 or 1 |
| TimeParserProperties.BareHours | utils.py:50-54 | a bare digit string (optionally followed by one newline) parses to its value in hours |
| TimeParserProperties.ElevenDays | test.py:48-54 | "11 days" parses to 950400 |
| TimeParserProperties.TwoHours | test.py:56-62 | "2H" parses to 7200 |
| TimeParserProperties.TenMins | test.py:64-70 | "10mins" parses to 600 |
| TimeParserProperties.ElevenSeconds | test.py:72-78 | "11 seconds" parses to 11 |
| TimeParserProperties.DayAndHour | test.py:80-86 | "1d 1h" parses to 90000 |
| TimeParserProperties.HourAndSecond | test.py:80-86 | "1h 1s" parses to 3601 |
| TimeParserProperties.BareTen | test.py:88-94 | "10" parses to 36000 |
| TimeParserProperties.BareTenNewline | utils.py:6 | "10\n" parses to 36000, since `$` matches before a final newline |
| TimeParserProperties.SpaceThenHour | utils.py:5 | " 1h" parses to 3600: whitespace may precede a field after the days slot |
| TimeParserProperties.LetterStart | utils.py:42-55 | a token whose first character is neither a digit nor whitespace is refused |
| TimeParserProperties.UnknownUnit | utils.py:5 | a token that starts with a number followed by a word that is not a unit of any group is refused |
| TimeParserProperties.OutOfOrderFields | utils.py:5 | a token that starts with a field followed by a field of an earlier or the same group is refused |
| TimeParserProperties.UnitlessTail | utils.py:5 | a token made of a field, whitespace and digits without a unit is refused |
| TimeParserProperties.SpaceBeforeDays | utils.py:5 | whitespace before a days field is refused |
| TimeParserProperties.Refused | utils.py:42-55 | a token that no canonical spelling of the complex expression writes, and that is not a bare count, gives no result |
| TimeParserProperties.Asd | test.py:96-100 | "asd" is refused |
| TimeParserProperties.OneX | test.py:96-100 | "1x" is refused |
| TimeParserProperties.TrailingDigits | test.py:96-100 | "1d 1" is refused |
| TimeParserProperties.OutOfOrder | test.py:96-100 | "1s 1h" is refused |
| TimeParserProperties.TwoDayCapital | utils.py:5 | "2Day" is refused: only one-letter units have an upper-case form |
| TimeParserProperties.SpaceThenDay | utils.py:5 | " 1d" is refused |
| TimeFormat.HumanTime | utils.py:9-39 | a duration under a minute is written "<n>s" and a whole number of days "<n>d"; `HumanTimeEmpty`, `HumanTimeEnds` and `HumanTimeRoundTrip` state the rest |
| TimeFormat.Decompose | utils.py:10-21 | the parts add up to the input, with hours < 24, minutes < 60 and seconds < 60 |
| TimeFormat.WritePiece | utils.py:24-37 | writing one non-zero part, with a space before it when something was written already, extends the text to the spaces-joined list of parts |
| TimeFormat.GetHumanTime | utils.py:9-39 | the text written by the step-by-step computation is the non-zero parts "<n>d", "<n>h", "<n>m", "<n>s" in that order, joined by single spaces |
| TimeFormatProperties.DecomposeUnique | utils.py:10-21 | any normalised decomposition with the same total is the one computed |
| TimeFormatProperties.HumanTimeEmpty | utils.py:23-39 | the text is empty exactly when the duration is 0 |
| TimeFormatProperties.HumanTimeRoundTrip | utils.py:9-55 | parse_time reads back every non-zero formatted duration as the same number of seconds |
| TimeFormatProperties.HumanTimeEnds | utils.py:23-39 | a non-zero duration's text starts with a digit and ends with one of the unit letters d, h, m, s |
| TimeFormatProperties.OneHour | utils.py:23-39 | 3600 seconds are written "1h" |
| TimeFormatProperties.DayHourSecond | utils.py:23-39 | 90061 seconds are written "1d 1h 1m 1s" |
| Expiry.ShieldAlert | tazdingo.py:414-423 | "expired" exactly when it was not sent yet and the end has passed; "almost expired" only when it was not sent yet and under an hour is left; no alert exactly when each alert is sent already or not yet due |
| Expiry.ShieldStep | tazdingo.py:413-423 | after a tick each shield flag is set exactly when it was set or its deadline has passed (expired before now; under an hour left); nothing else changes and nothing is left to send at the same time |
| Expiry.TickShields | tazdingo.py:409-431 | a round keeps every shield with its user and its end, leaves none with an alert to send, and leaves a shield with nothing due as it was |
| Expiry.Overdue | tazdingo.py:274 | the overdue users all have a shield; they include every user alerted "expired" at this time, and every other one was sent "expired" already |
| Expiry.Alerted | tazdingo.py:415-423 | the users each mention list names all have a shield; those alerted "expired" are past their end and were not sent it yet, those alerted "almost expired" have under an hour left and were not sent it yet |
| Expiry.FiredTier | tazdingo.py:436-462 | the announced tier is due (not yet announced and its hours have elapsed), and it is the highest due tier |
| Expiry.Raise | tazdingo.py:439-462 | announcing a tier sets its flag and the flags of every lower tier, and changes nothing else |
| Expiry.PreyStep | tazdingo.py:435-466 | after a tick a prey's tier flag is set exactly when it was set or its hours have elapsed; a prey with nothing due is unchanged; nothing is left to announce at the same time |
| Expiry.Retires | tazdingo.py:462-464 | defines the removal test: the prey is announced in this round and all four flags are set afterwards; `RetiresExactly` characterises it |
| Expiry.TickPreys | tazdingo.py:433-473 | a round keeps only stored preys, each with its name and entry time and with nothing left to announce; a prey with nothing due stays as it was |
| Expiry.AlertFor | tazdingo.py:465 | a prey is announced exactly when some tier is due, and the announcement names its user, its name and a due tier |
| Expiry.PreyAlerts | tazdingo.py:465-469 | every prey announced this round is in the set, and the set is empty when no prey has a tier due |
| Expiry.NextDeadline | tazdingo.py:352-362 | the listed tier is unannounced and its deadline not yet past, and it is the lowest such tier |
| Expiry.TrackFor | tazdingo.py:351-365 | a prey is listed exactly when it has a next deadline; the time left is that deadline minus now, never negative, and at most 24 hours for a prey entered before now |
| Expiry.Tracks | tazdingo.py:350-365 | the entries of the preys with a next deadline are all present, none has negative time left, and there are none when no prey has a next deadline |
| Expiry.InsertSorted | tazdingo.py:369 | inserting into a list ascending by time left keeps it ascending |
| Expiry.InsertCount | tazdingo.py:369 | inserting adds exactly the one entry |
| Expiry.SortTracks | tazdingo.py:369 | the listing is ascending by time left and a permutation of the entries |
| Expiry.ShieldFits | tazdingo.py:209 | for any clock a `datetime` can show, the expiry can be computed exactly when it is no later than 9999-12-31 23:59:59 UTC; the `timedelta` limit never decides |
| ExpiryProperties.HugeShield | tazdingo.py:76-80 | `$shield 100000000` parses to 360000000000 seconds, and from any clock after 1970 that expiry does not fit |
| Expiry.NewShield | tazdingo.py:207-225 | a new shield belongs to the author, ends `seconds` after now, is not marked expired, is marked "almost expired" exactly when shorter than an hour, and owes no alert at once |
| Expiry.NewRein | tazdingo.py:249-254 | the new reinforcement belongs to the author and is entered now |
| Expiry.NewPrey | tazdingo.py:310-327 | no prey is made when none of 4, 8, 12, 24 is requested; otherwise each tier not requested counts as announced, and the prey has a tier left |
| ExpiryProperties.ShieldTickSettles | tazdingo.py:409-431 | a second round at the same time changes no shield and sends no shield alert |
| ExpiryProperties.ExpiredOnce | tazdingo.py:415-419 | after "expired" a shield never alerts again |
| ExpiryProperties.AfterExpiring | tazdingo.py:415-423 | after "almost expired" the only alert left is "expired", once the shield has run out |
| ExpiryProperties.NewShieldExpires | tazdingo.py:415-419 | a new shield alerts "expired" at any round after its end |
| ExpiryProperties.NewShieldWarns | tazdingo.py:420-423 | a new shield of an hour or more alerts "almost expired" at a round within its last hour |
| ExpiryProperties.PreyTickSettles | tazdingo.py:433-473 | a second round at the same time changes no prey and announces nothing |
| ExpiryProperties.RetiresExactly | tazdingo.py:462-473 | a prey is removed in a round exactly when some tier is due and every tier is then announced or due |
| ExpiryProperties.DayRetires | tazdingo.py:439-473 | once 24 hours have passed unannounced, the 24-hour tier is announced and the prey is removed |
| ExpiryProperties.ThirteenHours | tazdingo.py:446-451 | a fresh prey at 13 hours announces 12; 4, 8, 12 are then set, 24 is not, and the listing shows 11 hours left |
| ExpiryProperties.ListedAfterStep | tazdingo.py:352-364 | a prey with a tier left after a round is listed with positive time left |
| ExpiryProperties.TickKeepsUnfinished | tazdingo.py:462-473 | if every stored prey has a tier left before a round, the same holds after it |
| ExpiryProperties.ListedAfterTick | tazdingo.py:347-365 | right after a round every stored prey appears in the listing with positive time left |
| ExpiryProperties.DefaultTrack | tazdingo.py:310-327 | a plain `$track` leaves all four tiers pending and lists the prey with 4 hours left |
| ExpiryProperties.NotifiedWereAlerted | tazdingo.py:271-290 | a round keeps every deadline, so every user `$notify` mentions afterwards was already sent "expired" |
| ExpiryProperties.PruneLeavesCurrent | tazdingo.py:292-303 | pruning keeps exactly the shields not past their end, so a second prune finds nothing |
| Tazdingo.Poach.constructor | tazdingo.py:30-35 | the poach starts with three empty maps, which satisfy the invariant |
| Tazdingo.Poach.Keyed | tazdingo.py:35-43 | defines the key rule of the three dicts: shields and reinforcements under their user id, preys under their prey name, as `load_from_db` stores them |
| Tazdingo.Poach.Valid | tazdingo.py:28-43 | defines the invariant the handlers keep: the key rule, no user both shielding and reinforcing, and every stored prey with a tier left |
| Tazdingo.Commands.constructor | tazdingo.py:47-50 | the handlers work on the poach they are given |
| Tazdingo.Commands.Unshield | tazdingo.py:202-205 | the user's shield is removed if present; the other maps are unchanged |
| Tazdingo.Commands.Recall | tazdingo.py:240-243 | the user's reinforcement is removed if present; the other maps are unchanged |
| Tazdingo.Commands.Lose | tazdingo.py:305-308 | the prey is removed if present; the other maps are unchanged |
| Tazdingo.Commands.OnShield | tazdingo.py:207-230 | when the expiry fits in a `datetime`, the author's shield becomes the new one, their reinforcement is gone and the reply is an ack; otherwise the handler raises and nothing changes; preys are untouched and the invariant is kept |
| Tazdingo.Commands.ShieldCommand | tazdingo.py:78-82 | for a single argument: a duration parse_time refuses gets the cross mark and changes nothing; a parsed one that overflows the calendar raises and changes nothing; any other sets the shield for that many seconds |
| Tazdingo.Commands.OnUnshield | tazdingo.py:232-238 | ack exactly when the author had a shield; the shield is gone afterwards |
| Tazdingo.Commands.OnRein | tazdingo.py:245-261 | the author's shield is gone and their reinforcement is recorded as of now, ack; the invariant is kept |
| Tazdingo.Commands.OnRecall | tazdingo.py:263-269 | ack exactly when the author reinforced; the reinforcement is gone afterwards |
| Tazdingo.Commands.OnNotify | tazdingo.py:271-290 | ack exactly when some shield is past its end; the mentions are exactly the user ids recorded in those shields, which are their keys when every shield is stored under its user |
| Tazdingo.Commands.OnPrune | tazdingo.py:292-303 | ack exactly when some shield is past its end; afterwards exactly the shields past their end are gone |
| Tazdingo.Commands.OnTrack | tazdingo.py:310-338 | ack exactly when a known tier is requested; the prey is then (re)tracked as new, otherwise nothing changes |
| Tazdingo.Commands.OnLose | tazdingo.py:340-345 | ack exactly when the prey was tracked; it is untracked afterwards |
| Tazdingo.Commands.OnTracks | tazdingo.py:347-380 | error exactly when no prey is tracked; the listing holds exactly the entries of the preys with a next deadline, ascending by time left, each once when every prey is stored under its name |
| Tazdingo.Client.constructor | tazdingo.py:383-387 | the client makes a fresh empty poach that satisfies the invariant, and its handlers share that same poach |
| Tazdingo.Client.CheckShield | tazdingo.py:414-423 | the branch taken for a shield is its alert and the updated shield is one step of it |
| Tazdingo.Client.Announce | tazdingo.py:436-462 | the tier cascade announces the fired tier, leaves the prey one step on, and the all-flags test decides removal |
| Tazdingo.Client.NotifyShields | tazdingo.py:409-431 | the shields are all stepped; the two mention lists hold exactly the users alerted "expired" and "almost expired", each once |
| Tazdingo.Client.NotifyPreys | tazdingo.py:433-469 | the preys are all stepped; the announcements and the removal list are exactly those of the round, each once |
| Tazdingo.Client.RemoveRetired | tazdingo.py:471-473 | exactly the listed names are popped |
| Tazdingo.Client.Tick | tazdingo.py:405-473 | one round: the shields and preys become TickShields and TickPreys of the old ones, reinforcements stay, the alert lists are exact and duplicate-free, and the invariant is kept |

## Left out

- Discord I/O is left out: connecting, the message and channel objects, reactions and sending text. A reply is the `ok` result, alerts are returned lists, and the text of messages (mention markup, code fences, `\n` joins) is not modelled.
- `on_message` command dispatch (splitting, lower-casing, argument counting, `get_member_name`, `is_tuple`, `int` conversion of tiers) is left out, except for the `$shield` path with exactly one argument, which is `ShieldCommand`. The cross mark `$shield` gives for zero or several arguments (tazdingo.py:77, 83-84) is not modelled.
- `_is_owner`, `_on_commands`, `_on_status` and `_on_hive` are left out; they only read state and format text.
- The database is left out: `load_from_db`, `save` and `delete`. So is the thread hand-off done with `sync_to_async`. `OnRein` therefore does not model that the code saves only a first reinforcement and keeps the old database row on a repeat.
- The background loop's `wait_until_ready`, `is_closed`, the 60-second sleep and the concurrency between the loop and the handlers are left out. `Tick` is one round, run atomically.
- Records are values in maps. The code instead mutates shared model objects in place; no other code holds them, so no aliasing is lost.
- Dictionary iteration order is left out. Mention lists and announcements are specified as duplicate-free lists with exact membership, not in a fixed order. `SortTracks` does not claim the stability of Python's `sorted`.
- Time is whole seconds. `timedelta` microseconds and time zones are not modelled.
- Python's `\s` and `\d` are modelled on ASCII only. Other Unicode whitespace and digits count as word characters.
- `GetHumanTime` takes a non-negative number of seconds. Negative `timedelta` values are not modelled.
- Python integers are unbounded, as are Dafny's, so no integer width is modelled. `datetime` and `timedelta` are bounded: the bound matters only where `$shield` adds a user-given duration to the clock (`ShieldFits`, `MaxTime`, `MaxDelta`). Elsewhere the code only adds at most 24 hours, to a prey's entry time in `$tracks`; the OverflowError there, for a prey entered within a day of `datetime.max`, is not modelled.
- TimeParser.ParseTime: does not model the ValueError that current CPython's `int()` raises for a decimal string of more than 4300 digits. A Discord message holds at most 4000 characters, so the bot cannot receive such a token.
- Tazdingo.Client.Tick: requires `Poach.Keyed()`: every record is stored under its own user id or prey name. `load_from_db` and every handler store records this way. The code does not check it; without it, its mention lists could name a different id than the key.
- Tazdingo.Commands.OnTracks: promises that no entry repeats only under `Poach.Keyed()`. Its other promises hold for any state.
- Tazdingo.Commands.OnShield, OnRein and the other handlers: keep the invariant only in the form `old(Valid()) ==> Valid()`. A state loaded from the database is not assumed to satisfy it.
