# phil reminder check, modelled in Dafny

phil reads a calendar of recurring events and mails a reminder when an
event's next occurrence is exactly `remind` days away. It keeps a state
file `state.js` in its data directory. The file maps each event id to the
date string of the occurrence last looked at, so that repeated runs
(under cron, say) do not mail the same occurrence twice.

This project models that check:

- `rrule.dfy` (module `Rrule`): how an iCalendar RRULE (section 3.3.10 of
  RFC 5545) becomes the frequency and the twelve keyword arguments of a
  dateutil rule (`FREQ_MAP`, `convert_rrule`, `tweak`).
- `check.dfy` (module `Check`): the id the reader composes for an event,
  the due-date test `should_remind`, and the per-event loop of `handle_cfg`.
  The loop is written twice. `Check.Run` is a pure definition. The
  imperative `Check.ProcessEvents` is verified against it, and
  `Check.HandleCfg` wraps it with loading and saving the state.
- `util.dfy` (module `Util`): `normalize_path`, `get_state_js`,
  `load_state` and `save_state`. The file system is a map from absolute
  path to entry; the methods of `Util.FileSystem` update it in place.
- `datetime.dfy` (module `DateTime`): what the check uses from Python's
  `datetime`. This covers proleptic Gregorian dates, `toordinal`, the day
  count of `date - date`, `str(date)`, and `str(datetime)` for naive
  datetimes.
- `wrappers.dfy`: `Option` and `Result`.

Recurrence expansion (`rrule.after(today, inc=True)`) is a parameter
`after` of type `Check.After`. dateutil's promise that a returned
occurrence is not before the reference becomes the hypothesis
`Check.Inclusive`. Sending mail is an output: `Check.ProcessEvents` and
`Check.HandleCfg` return the reminders handed to the mail transport, in order.
A mail carries sender, recipients, subject (the summary) and body (the
description).

Reading the program, one might expect a few things it does not do: record
an occurrence only after its reminder went out, skip an exhausted rule, expand
a template into the mail body, save the state atomically, or remind within a
window of days. The model does what the code does:

- The state entry is overwritten whether or not a mail was sent
  (check.py:146), not only after a successful send. As a result, an
  occurrence first seen before its due day is never reminded about
  (`Check.LaterPassSendsNothing`, `Check.ReminderLostAfterEarlySighting`).
- An exhausted rule (`after` returns `None`) does not just skip the event.
  It raises at `next_date.date()`. The run stops there: mails already sent
  stay sent, and the state is not saved.
- The subject is the bare summary. No template expansion is applied to the
  description.
- Saving overwrites the state file in place; nothing makes it atomic.
- Whatever the lead time, the test is exact equality of the day difference.
  It is not an "at most `remind` days" threshold.

## Model

| member | source | states |
|---|---|---|
| `DateTime.DaysBetweenSign` | phil/check.py:96-98 | the day count of `next.date() - today.date()` is negative, zero or positive exactly when the occurrence's date is before, equal to or after today's |
| `DateTime.OrdinalInjective` | phil/check.py:97 | two dates have the same ordinal exactly when they are the same date |
| `DateTime.OrdinalNextDay` | phil/check.py:96-98 | the day after a date has an ordinal one higher, so the day count of `date - date` is the number of calendar days between them, across month and year ends |
| `DateTime.OrdinalMonotone` | phil/check.py:97 | an earlier calendar date has a smaller ordinal, across months, leap years and centuries |
| `DateTime.IsoDateInjective` | phil/check.py:136 | `str(date)` values are equal exactly when the dates are, so the string comparison at the skip test compares dates |
| `DateTime.IsoInstantInjective` | phil/check.py:86 | `str(dtstart)` determines the datetime |
| `Rrule.ConvertArgs` | phil/check.py:51-59 | the argument dictionary exists exactly when no listed key holds an empty list; it then has exactly the listed keys, lists replaced by their first element, scalars passed through, missing keys `None`; otherwise the error is the `IndexError` of the first such key in list order |
| `Rrule.ConvertRruleMeaning` | phil/check.py:35-60 | conversion succeeds exactly when the first `freq` element is HOURLY, DAILY, MONTHLY or YEARLY and no listed key holds an empty list; the result is then `FREQ_MAP` of that token with the twelve-key dictionary |
| `Rrule.MakeRuleMeaning` | phil/check.py:75-78 | when the RRULE converts, the rule has `FREQ_MAP` of the first frequency token, the twelve converted arguments and the event's DTSTART as its start; a conversion error propagates unchanged |
| `Rrule.UnknownFreqRejected` | phil/check.py:49 | a first frequency token outside `FREQ_MAP` raises `KeyError` for that token |
| `Rrule.ConvertConsultsOnly` | phil/check.py:49-59 | the result depends only on the first `freq` element and on the twelve listed keys |
| `Rrule.CountAndByDayDropped` | phil/check.py:51-53 | COUNT and BYDAY never reach dateutil, because the key list has neither (it asks for `byweekday`) |
| `Check.PastOccurrenceNeverDue` | phil/check.py:96-98 | an occurrence dated before today never matches a non-negative `remind` |
| `Check.InclusiveNextNotNegative` | phil/check.py:92-93 | an occurrence at or after the reference instant is zero or more days away |
| `Check.DueOnOneDayOnly` | phil/check.py:96-98 | for one occurrence and lead time the test holds on a single calendar day, at every time of that day |
| `Check.SameDayDue` | phil/check.py:96-98 | with `remind == 0` the test holds exactly on the occurrence's own date |
| `Check.EventIdInjective` | phil/check.py:86 | when no summary contains a colon, `str(dtstart)::summary::organizer` determines start, summary and organizer |
| `Check.EventIdCollision` | phil/check.py:86 | a summary containing "::" lets two different events share an id |
| `Check.SeenOccurrenceNeverMailedAgain` | phil/check.py:134-146 | once an event has been looked at, looking again at an occurrence on the same date sends nothing and changes nothing, on any day |
| `Check.NewOccurrenceFires` | phil/check.py:134-146 | a recorded date does not block a due occurrence on a different date: it is mailed and its date recorded |
| `Check.RunCrashes` | phil/check.py:132-137 | the pass raises exactly when some event's rule has no next occurrence (sending is taken never to fail, see "## Left out") |
| `Check.RunKeepsOtherEntries` | phil/check.py:132-148 | entries whose id is not among the pass's events are untouched |
| `Check.RunRecordsOccurrence` | phil/check.py:146 | after a pass that does not raise (every event has a next occurrence), every event that no later event shares an id with has its id mapped to its next occurrence's date string, whether or not a mail was sent |
| `Check.RunMailsAreDue` | phil/check.py:139-144 | a pass sends no more mails than there are events; the mails can be matched, in order, to strictly increasing event indices, so no event is mailed twice; each mail carries the summary and description of its event, whose occurrence is due |
| `Check.RunMailsExactly` | phil/check.py:132-146 | for a pass that does not raise (every event has a next occurrence) and has distinct ids, the mails are exactly those of the events that are due and whose date the loaded state does not hold, in event order |
| `Check.SettledRunIsSilent` | phil/check.py:134-137 | a state that already holds every event's next date makes a pass that sends nothing and changes nothing |
| `Check.RunSettles` | phil/check.py:132-146 | when events sharing an id agree on the next date, a completed pass leaves every event's next date recorded |
| `Check.LaterPassSendsNothing` | phil/check.py:132-148 | a later pass whose events have their next occurrences on the recorded dates sends nothing, even on a due day |
| `Check.RunTwiceSendsNothing` | phil/check.py:132-148 | when every event has a next occurrence and events sharing an id agree on it, two passes with the same day and events: the first does not raise and the second sends nothing and changes nothing |
| `Check.NegativeRemindNeverMails` | phil/check.py:92-98 | with dateutil's inclusive `after`, a negative `remind` never mails |
| `Check.ReminderLostAfterEarlySighting` | phil/check.py:134-146 | concrete run: an occurrence first seen seven days ahead with `remind = 3` is not mailed on its due day |
| `Check.DuplicateIdsRemail` | phil/check.py:86 | concrete run: two events with one id and different next dates make the due one mail again on the second pass, which leaves the state as the first pass left it, so every later pass of the day does the same |
| `Check.ExhaustedRuleRemails` | phil/check.py:132-148 | concrete run: a due event followed by an exhausted rule makes each run mail the due event, then fail with `NoOccurrence` before saving, leaving the file system as it was; a second run therefore gives the same outcome |
| `Check.AsWrittenNeverMails` | phil/check.py:139-144 | as written, the pass never delivers a mail; it raises exactly when the intended pass would raise or send |
| `Check.HandleCfgFailures` | phil/check.py:124-148 | a state file that cannot be loaded or created stops the run before any mail; a missing next occurrence fails the run and leaves the state file as loading left it |
| `Check.HandleCfgTwiceSendsNothing` | phil/check.py:124-148 | when events sharing an id agree on the next date, a second run after a completed one, with the same day and events, sends nothing, completes, and leaves the file system unchanged |
| `Check.ProcessEvents` | phil/check.py:132-146 | the loop (skip a date already held, hand over a reminder when due, record the date) ends with the state, the crash flag and the reminders, in order, of `Run`, so every property of `Run` above holds of it |
| `Check.HandleCfg` | phil/check.py:124-148 | load, loop and save, with the file system updated in place, give the status, the new file system and the reminders of `HandleCfgSpec` |
| `Util.NormalizePathRejects` | phil/util.py:36-43 | `None` or "" is not a valid path; a missing path does not exist; FILE rejects a non-file and DIR a non-directory, each with exactly its condition |
| `Util.NormalizePathAccepts` | phil/util.py:31-45 | accepted exactly when the path is non-empty, exists, and has the expected kind (any kind for another expectation); returns the absolute form, so an absolute path comes back unchanged |
| `Util.NormalizePathIdempotent` | phil/util.py:45 | with an absolute working directory the result is absolute and normalizes to itself |
| `Util.StateJsInDatadir` | phil/util.py:63-64 | the state file is `state.js` directly inside the data directory |
| `Util.StateJsInjective` | phil/util.py:63-64 | different data directories without a trailing slash have different state files |
| `Util.SaveThenLoad` | phil/util.py:67-80 | loading after a successful save returns exactly the saved map and changes nothing |
| `Util.SaveReplacesWholeFile` | phil/util.py:78-80 | a save succeeds exactly when the file can be opened for writing; the file then holds the map whatever it held before, no other path changes, and a failed save changes nothing |
| `Util.LoadMissingCreatesEmpty` | phil/util.py:67-73 | with no state file, loading returns the empty map and leaves an empty state file, or fails with no change when that file cannot be written |
| `Util.LoadExistingReadsOnly` | phil/util.py:67-75 | with a state file present, loading changes nothing and returns exactly the map the file holds, failing when it holds something else |
| `Util.LoadLeavesStateFile` | phil/util.py:67-75 | after a successful load the state file holds exactly the returned map |
| `Util.FileSystem.SaveState` | phil/util.py:78-80 | the method's result and new file system are those of `SaveStateSpec` |
| `Util.FileSystem.LoadState` | phil/util.py:67-75 | the method's result and new file system are those of `LoadStateSpec` |

## Findings

| source | as written | input that shows it | evidently intended | confidence | as-written member | corrected member |
|---|---|---|---|---|---|---|
| phil/check.py:143-144 | `send_mail_smtp` is called with six arguments but takes seven (phil/check.py:168), so the call raises `TypeError` whenever a reminder is due, and the state is then not saved | any event that is not skipped and is due, e.g. `remind = 0` and an occurrence today (`Check.AsWrittenNeverMails`) | dispatch the reminder (sender, recipients, summary, description) and go on with the next event | high; not executed | `Check.RunAsWritten` | `Check.Run` |

## Left out

- Calendar parsing (`parse_ics`, via the icalendar package): events are an
  input. Kept: the id composition (`Check.EventId`) and the rule
  construction from DTSTART (`Rrule.MakeRule`, described by
  `Rrule.MakeRuleMeaning`). Event lists are not built from it: each `Check.Event`
  holds its rule directly. Property names are taken as
  already lower case; icalendar's case-insensitive dictionary is not
  modelled.
- Recurrence expansion by dateutil (`get_next_date`, `rrule.after`): the
  `after` parameter stands for it. Only its inclusive promise is used, as
  the hypothesis `Check.Inclusive`. Minimality and the rule semantics are
  not modelled. A result of `None` stands for "no next occurrence, or
  dateutil raised while computing it" (for instance on the `interval=None`
  that phil/check.py:59 passes when INTERVAL is absent): either way the
  pass stops there, earlier mails stay sent and nothing is saved.
- Rrule.MakeRuleMeaning: dateutil's own checks of its arguments in the
  `rrule(freq, **args)` constructor at phil/check.py:78 are not modelled
  (for instance a WKST weekday string that it cannot use). `Rrule.DateutilRule`
  is a plain record, so every converted RRULE yields a rule in the model,
  even one the constructor would reject.
- `datetime.datetime.today()`: the `today` argument.
- SMTP (`send_mail_smtp`): a reminder handed over is appended to the `sent`
  output of `Check.ProcessEvents`, and handing over always succeeds. In the program a send can raise: the connection is refused, or
  a recipient string is not exactly two characters, so that
  `for to_name, to_addr in to_list` (phil/check.py:171) cannot unpack it.
  The pass then stops, the mails sent earlier stay sent, and `save_state`
  (phil/check.py:148) is skipped, so the next run sends them again. The
  model has no such failure. `Check.RunCrashes` and the run-level lemmas
  therefore describe a pass whose sends all go through. The swapped To/From
  headers are not modelled either.
- JSON encoding: a regular file's contents are either a JSON object of
  strings (`Util.StateJson`) or anything else (`Util.Other`). Loading
  anything else fails as `Malformed`, whereas Python accepts other JSON
  (a list, non-string values) and fails later or not at all.
- File system details: parent directories, read permissions, symbolic
  links, and the atomicity of writes.
- `parse_cfg`, `check_for_events`, `wrap_paragraphs`, `err`, `out`, the
  command line (phil/cmdline.py), phil/configuration.py and setup.py:
  configuration plumbing, exception printing and terminal output. The
  `Section` record is an input.
- Time zones and microseconds: instants are naive and to the second, so
  `str(dtstart)` always has the form "YYYY-MM-DD HH:MM:SS".
- Util.NormalizePathRejects: existence and kind are looked up under the
  joined string `AbsPath(cwd, path)`, while `os.path.exists` and
  `os.path.isfile` let the operating system resolve ".", ".." and doubled
  slashes. A path such as "./f" or "a/../f" that names an existing file is
  therefore reported as `DoesNotExist` unless the map holds that exact
  string as well.
- Util.Writable and `Util.LoadStateSpec`: a `Special` entry (a device or
  socket) can be neither written nor read. The program can open such a
  path, for example /dev/null, and write the state into it or fail only
  while decoding.
- Util.NormalizePathAccepts: the absolute form is the working directory
  joined with the path; `os.path.normpath`'s removal of ".", ".." and
  doubled slashes is not modelled, so an absolute path comes back exactly
  as given.
- Check.RunMailsExactly: stated for distinct event ids only. With shared ids
  `Check.RunMailsAreDue` gives the weaker bound.
- Check.HandleCfgTwiceSendsNothing: requires that every event has a next
  occurrence and that events sharing an id agree on it; the program ensures
  neither. `Check.DuplicateIdsRemail` shows repeated mails for shared ids,
  and `Check.ExhaustedRuleRemails` shows every run mailing again when a rule
  is exhausted.
- Check.RunTwiceSendsNothing: requires that every event has a next
  occurrence and that events sharing an id agree on it. `Check.DuplicateIdsRemail`
  and `Check.ExhaustedRuleRemails` show the mails repeating otherwise.
- Check.RunMailsExactly and Check.RunRecordsOccurrence: stated for a pass in
  which every event has a next occurrence; a pass that raises is described
  only by `Check.RunCrashes` and `Check.RunMailsAreDue`.
