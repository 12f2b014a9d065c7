/**
 * The reminder check: event ids, the due-date test, and one pass over the
 * calendar's events that mails due reminders and records, per event id, the
 * date of the occurrence last looked at.
 */
module Check {
  import opened Wrappers
  import opened DateTime
  import opened Rrule
  import opened Util

  /** A calendar event as the calendar reader hands it over (`Event` namedtuple). */
  datatype Event = Event(eventId: string, rule: DateutilRule, summary: string, description: string)

  /** The id the reader composes when the event has none: DTSTART, SUMMARY and ORGANIZER joined by "::". */
  function EventId(dtstart: Instant, summary: string, organizer: string): (id: string)
  {
    IsoInstant(dtstart) + "::" + summary + "::" + organizer
  }

  /** The configuration section (`Section` namedtuple). */
  datatype Section = Section(
    icsfile: string, remind: int, datadir: string,
    host: string, port: int, sender: string, toList: seq<string>)

  /** A reminder as handed to the mail transport: sender, recipients, subject, body. */
  datatype Mail = Mail(sender: string, recipients: seq<string>, subject: string, body: string)

  /** `rrule.after(reference, inc=True)`, computed by dateutil; `None` when the rule is exhausted. */
  type After = (DateutilRule, Instant) -> Option<Instant>

  /** dateutil's promise for `inc=True`: an occurrence it returns is not before the reference. */
  ghost predicate Inclusive(after: After)
  {
    forall r, t :: after(r, t).Some? ==> InstantLe(t, after(r, t).value)
  }

  /** `should_remind`: the calendar dates are exactly `remind` days apart. */
  function ShouldRemind(today: Instant, next: Instant, remind: int): (due: bool)
  {
    remind == DaysBetween(today.date, next.date)
  }

  /** `state.get(id)` is truthy and equals `str(next.date())`. */
  predicate AlreadyReminded(state: State, id: string, next: Instant)
  {
    id in state && state[id] != "" && state[id] == IsoDate(next.date)
  }

  /** The mail sent for an event: subject is the summary, body the description. */
  function MailFor(section: Section, e: Event): (m: Mail)
  {
    Mail(section.sender, section.toList, e.summary, e.description)
  }

  /** One turn of the loop for an event whose next occurrence is `next`: new state and mails sent. */
  function VisitEvent(state: State, e: Event, next: Instant, today: Instant, section: Section)
    : (r: (State, seq<Mail>))
  {
    if AlreadyReminded(state, e.eventId, next) then (state, [])
    else
      (state[e.eventId := IsoDate(next.date)],
       if ShouldRemind(today, next, section.remind) then [MailFor(section, e)] else [])
  }

  /** What a pass leaves behind: the in-memory state, the mails sent, and whether it raised. */
  datatype PassResult = PassResult(state: State, mails: seq<Mail>, crashed: bool)

  /**
   * The loop of `handle_cfg` over the events, in order. An exhausted rule
   * makes `next_date.date()` raise, which ends the pass; the mails sent before
   * stay sent.
   */
  function Run(state: State, events: seq<Event>, today: Instant, section: Section, after: After)
    : (r: PassResult)
    decreases |events|
  {
    if events == [] then PassResult(state, [], false)
    else match after(events[0].rule, today)
      case None => PassResult(state, [], true)
      case Some(next) =>
        var (s1, m1) := VisitEvent(state, events[0], next, today, section);
        var rest := Run(s1, events[1..], today, section, after);
        rest.(mails := m1 + rest.mails)
  }

  /** Every event of the pass has a next occurrence. */
  predicate HasNext(events: seq<Event>, today: Instant, after: After)
  {
    forall i :: 0 <= i < |events| ==> after(events[i].rule, today).Some?
  }

  /** No two events of the pass share an id. */
  predicate DistinctIds(events: seq<Event>)
  {
    forall i, j :: 0 <= i < j < |events| ==> events[i].eventId != events[j].eventId
  }

  /** Events that share an id have their next occurrences on the same date. */
  predicate ConsistentIds(events: seq<Event>, today: Instant, after: After)
  {
    && HasNext(events, today, after)
    && forall i, j :: 0 <= i < |events| && 0 <= j < |events| && events[i].eventId == events[j].eventId ==>
      after(events[i].rule, today).value.date == after(events[j].rule, today).value.date
  }

  /** Every event's id is recorded with the date of its next occurrence. */
  predicate Settled(state: State, events: seq<Event>, today: Instant, after: After)
  {
    && HasNext(events, today, after)
    && forall i :: 0 <= i < |events| ==>
      events[i].eventId in state && state[events[i].eventId] == IsoDate(after(events[i].rule, today).value.date)
  }

  /**
   * Reference definition of the mails of a pass: each event is mailed when its
   * occurrence is due and the state as loaded does not already hold its date.
   */
  function DueMails(state0: State, events: seq<Event>, today: Instant, section: Section, after: After)
    : (mails: seq<Mail>)
    requires HasNext(events, today, after)
    decreases |events|
  {
    if events == [] then []
    else
      var next := after(events[0].rule, today).value;
      assert HasNext(events[1..], today, after) by {
        forall i | 0 <= i < |events| - 1 ensures after(events[1..][i].rule, today).Some? {
          assert events[1..][i] == events[i + 1];
        }
      }
      (if !AlreadyReminded(state0, events[0].eventId, next) && ShouldRemind(today, next, section.remind)
       then [MailFor(section, events[0])] else [])
      + DueMails(state0, events[1..], today, section, after)
  }

  // ---------------------------------------------------------------------
  // The due-date test

  /** An occurrence on a date before today is never due for a non-negative lead time. */
  lemma PastOccurrenceNeverDue(today: Instant, next: Instant, remind: int)
    requires DateBefore(next.date, today.date) && remind >= 0
    ensures !ShouldRemind(today, next, remind)
  {
    DaysBetweenSign(today.date, next.date);
  }

  /** An occurrence at or after the reference instant is zero or more days away. */
  lemma InclusiveNextNotNegative(today: Instant, next: Instant)
    requires InstantLe(today, next)
    ensures DaysBetween(today.date, next.date) >= 0
  {
    DaysBetweenSign(today.date, next.date);
  }

  /**
   * The test ignores the time of day, and for a given occurrence and lead time
   * it holds on one calendar day only.
   */
  lemma DueOnOneDayOnly(t1: Instant, t2: Instant, next: Instant, remind: int)
    requires ShouldRemind(t1, next, remind) && ShouldRemind(t2, next, remind)
    ensures t1.date == t2.date
    ensures forall s: SecondOfDay :: ShouldRemind(Instant(t1.date, s), next, remind)
  {
    OrdinalInjective(t1.date, t2.date);
  }

  /** With no lead time, the reminder is due exactly on the occurrence's own date. */
  lemma SameDayDue(today: Instant, next: Instant)
    ensures ShouldRemind(today, next, 0) <==> today.date == next.date
  {
    DaysBetweenSign(today.date, next.date);
  }

  // ---------------------------------------------------------------------
  // Event ids

  /** When neither summary contains a colon, the id determines start, summary and organizer. */
  lemma EventIdInjective(t1: Instant, s1: string, o1: string, t2: Instant, s2: string, o2: string)
    requires ':' !in s1 && ':' !in s2
    requires EventId(t1, s1, o1) == EventId(t2, s2, o2)
    ensures t1 == t2 && s1 == s2 && o1 == o2
  {
    var id1, id2 := EventId(t1, s1, o1), EventId(t2, s2, o2);
    assert id1[..19] == IsoInstant(t1) && id2[..19] == IsoInstant(t2);
    IsoInstantInjective(t1, t2);
    var r1, r2 := id1[21..], id2[21..];
    assert r1 == s1 + "::" + o1 && r2 == s2 + "::" + o2;
    var k := if |s1| <= |s2| then |s1| else |s2|;
    assert r1[k] == r2[k];
    assert s1 == r1[..|s1|] && s2 == r2[..|s2|];
    assert o1 == r1[|s1| + 2..] && o2 == r2[|s2| + 2..];
  }

  /** A summary containing "::" can make two different events share an id. */
  lemma EventIdCollision(t: Instant)
    ensures EventId(t, "a::b", "") == EventId(t, "a", "b::")
  {
    var p := IsoInstant(t) + "::";
    assert EventId(t, "a::b", "") == p + "a::b" + "::" + "";
    assert EventId(t, "a", "b::") == p + "a" + "::" + "b::";
    assert "a::b" + "::" + "" == "a" + "::" + "b::";
  }

  // ---------------------------------------------------------------------
  // One event

  /**
   * Once an occurrence date is recorded for an id, looking at that id again
   * with an occurrence on the same date sends nothing and changes nothing,
   * whatever day it is and whether or not the first look sent a mail.
   */
  lemma SeenOccurrenceNeverMailedAgain(
    state: State, e: Event, n1: Instant, today1: Instant, n2: Instant, today2: Instant, section: Section)
    requires n1.date == n2.date
    ensures var (s1, _) := VisitEvent(state, e, n1, today1, section);
      VisitEvent(s1, e, n2, today2, section) == (s1, [])
  {
    var (s1, _) := VisitEvent(state, e, n1, today1, section);
    assert s1[e.eventId] == IsoDate(n1.date);
    assert AlreadyReminded(s1, e.eventId, n2);
  }

  /** A recorded date does not block a later, different occurrence of the same event. */
  lemma NewOccurrenceFires(state: State, e: Event, next: Instant, today: Instant, section: Section, d0: Date)
    requires e.eventId in state && state[e.eventId] == IsoDate(d0) && next.date != d0
    requires ShouldRemind(today, next, section.remind)
    ensures VisitEvent(state, e, next, today, section)
      == (state[e.eventId := IsoDate(next.date)], [MailFor(section, e)])
  {
    IsoDateInjective(d0, next.date);
  }

  // ---------------------------------------------------------------------
  // The pass

  /** The pass raises exactly when some event has no next occurrence. */
  lemma {:induction false} RunCrashes(state: State, events: seq<Event>, today: Instant, section: Section, after: After)
    ensures Run(state, events, today, section, after).crashed <==> !HasNext(events, today, after)
    decreases |events|
  {
    if events != [] && after(events[0].rule, today).Some? {
      var (s1, m1) := VisitEvent(state, events[0], after(events[0].rule, today).value, today, section);
      RunCrashes(s1, events[1..], today, section, after);
      assert HasNext(events, today, after) <==> HasNext(events[1..], today, after) by {
        if HasNext(events[1..], today, after) {
          forall i | 0 <= i < |events| ensures after(events[i].rule, today).Some? {
            if i > 0 { assert events[i] == events[1..][i - 1]; }
          }
        }
        if HasNext(events, today, after) {
          forall i | 0 <= i < |events| - 1 ensures after(events[1..][i].rule, today).Some? {
            assert events[1..][i] == events[i + 1];
          }
        }
      }
    }
  }

  /** Entries for ids that are not among the pass's events are untouched. */
  lemma {:induction false} RunKeepsOtherEntries(
    state: State, events: seq<Event>, today: Instant, section: Section, after: After, k: string)
    requires forall i :: 0 <= i < |events| ==> events[i].eventId != k
    ensures var r := Run(state, events, today, section, after);
      (k in r.state <==> k in state) && (k in state ==> r.state[k] == state[k])
    decreases |events|
  {
    if events != [] && after(events[0].rule, today).Some? {
      var (s1, m1) := VisitEvent(state, events[0], after(events[0].rule, today).value, today, section);
      assert forall i :: 0 <= i < |events| - 1 ==> events[1..][i] == events[i + 1];
      RunKeepsOtherEntries(s1, events[1..], today, section, after, k);
    }
  }

  /**
   * After a pass that did not raise, the id of every event that no later event
   * shares holds the date of that event's next occurrence, mail or no mail.
   */
  lemma {:induction false} RunRecordsOccurrence(
    state: State, events: seq<Event>, today: Instant, section: Section, after: After, i: nat)
    requires i < |events| && HasNext(events, today, after)
    requires forall j :: i < j < |events| ==> events[j].eventId != events[i].eventId
    ensures var r := Run(state, events, today, section, after);
      events[i].eventId in r.state && r.state[events[i].eventId] == IsoDate(after(events[i].rule, today).value.date)
    decreases |events|
  {
    var (s1, m1) := VisitEvent(state, events[0], after(events[0].rule, today).value, today, section);
    assert HasNext(events[1..], today, after) by {
      forall j | 0 <= j < |events| - 1 ensures after(events[1..][j].rule, today).Some? {
        assert events[1..][j] == events[j + 1];
      }
    }
    if i == 0 {
      assert forall j :: 0 <= j < |events| - 1 ==> events[1..][j] == events[j + 1];
      RunKeepsOtherEntries(s1, events[1..], today, section, after, events[0].eventId);
    } else {
      assert events[1..][i - 1] == events[i];
      assert forall j :: i - 1 < j < |events| - 1 ==> events[1..][j] == events[j + 1];
      RunRecordsOccurrence(s1, events[1..], today, section, after, i - 1);
    }
  }

  /**
   * `idx` assigns each mail, in order, its own event: the indices increase, so
   * no event is mailed twice, and each picked event's occurrence is due.
   */
  predicate DueIndices(idx: seq<int>, mails: seq<Mail>, events: seq<Event>, today: Instant, section: Section, after: After)
  {
    && |idx| == |mails|
    && (forall k :: 0 <= k < |idx| ==>
      && 0 <= idx[k] < |events|
      && mails[k] == MailFor(section, events[idx[k]])
      && after(events[idx[k]].rule, today).Some?
      && ShouldRemind(today, after(events[idx[k]].rule, today).value, section.remind))
    && (forall k, l :: 0 <= k < l < |idx| ==> idx[k] < idx[l])
  }

  /** Indices into `events[1..]` become indices into `events`, one higher. */
  lemma ShiftIndices(idx: seq<int>, mails: seq<Mail>, events: seq<Event>, today: Instant, section: Section, after: After)
    returns (shifted: seq<int>)
    requires events != [] && DueIndices(idx, mails, events[1..], today, section, after)
    ensures DueIndices(shifted, mails, events, today, section, after)
    ensures forall k :: 0 <= k < |shifted| ==> shifted[k] >= 1
  {
    shifted := seq(|idx|, k requires 0 <= k < |idx| => idx[k] + 1);
    forall k | 0 <= k < |idx|
      ensures events[1..][idx[k]] == events[shifted[k]]
    {
    }
  }

  /** The first event, when due, takes index 0 in front of indices that are all higher. */
  lemma ConsIndex(idx: seq<int>, mails: seq<Mail>, events: seq<Event>, today: Instant, section: Section, after: After)
    requires events != [] && DueIndices(idx, mails, events, today, section, after)
    requires forall k :: 0 <= k < |idx| ==> idx[k] >= 1
    requires after(events[0].rule, today).Some?
    requires ShouldRemind(today, after(events[0].rule, today).value, section.remind)
    ensures DueIndices([0] + idx, [MailFor(section, events[0])] + mails, events, today, section, after)
  {
    var idx2, mails2 := [0] + idx, [MailFor(section, events[0])] + mails;
    forall k | 1 <= k < |idx2|
      ensures idx2[k] == idx[k - 1] && mails2[k] == mails[k - 1]
    {
    }
    forall k, l | 0 <= k < l < |idx2|
      ensures idx2[k] < idx2[l]
    {
      if k > 0 {
        assert idx[k - 1] < idx[l - 1];
      }
    }
  }

  /** Mails of a pass, each with the index of the event it was sent for. */
  lemma {:induction false} RunMailIndices(state: State, events: seq<Event>, today: Instant, section: Section, after: After)
    ensures |Run(state, events, today, section, after).mails| <= |events|
    ensures exists idx :: DueIndices(idx, Run(state, events, today, section, after).mails, events, today, section, after)
    decreases |events|
  {
    var r := Run(state, events, today, section, after);
    if events == [] || after(events[0].rule, today).None? {
      assert DueIndices([], r.mails, events, today, section, after);
    } else {
      var next := after(events[0].rule, today).value;
      var v := VisitEvent(state, events[0], next, today, section);
      var rest := Run(v.0, events[1..], today, section, after);
      RunMailIndices(v.0, events[1..], today, section, after);
      assert r.mails == v.1 + rest.mails;
      var idx' :| DueIndices(idx', rest.mails, events[1..], today, section, after);
      var shifted := ShiftIndices(idx', rest.mails, events, today, section, after);
      if v.1 == [] {
        assert r.mails == rest.mails;
      } else {
        assert v.1 == [MailFor(section, events[0])];
        ConsIndex(shifted, rest.mails, events, today, section, after);
      }
    }
  }

  /** A pass sends at most one mail per event, and only for an event whose occurrence is due. */
  lemma RunMailsAreDue(state: State, events: seq<Event>, today: Instant, section: Section, after: After)
    ensures |Run(state, events, today, section, after).mails| <= |events|
    ensures exists idx :: DueIndices(idx, Run(state, events, today, section, after).mails, events, today, section, after)
    ensures forall m :: m in Run(state, events, today, section, after).mails ==>
      exists i :: (0 <= i < |events| && m == MailFor(section, events[i])
        && after(events[i].rule, today).Some?
        && ShouldRemind(today, after(events[i].rule, today).value, section.remind))
  {
    var mails := Run(state, events, today, section, after).mails;
    RunMailIndices(state, events, today, section, after);
    var idx :| DueIndices(idx, mails, events, today, section, after);
    forall m | m in mails
      ensures exists i :: (0 <= i < |events| && m == MailFor(section, events[i])
        && after(events[i].rule, today).Some?
        && ShouldRemind(today, after(events[i].rule, today).value, section.remind))
    {
      var k :| 0 <= k < |mails| && mails[k] == m;
      assert m == MailFor(section, events[idx[k]]);
    }
  }

  lemma {:induction false} DueMailsIgnoresOtherKey(
    s: State, k: string, v: string, events: seq<Event>, today: Instant, section: Section, after: After)
    requires HasNext(events, today, after)
    requires forall i :: 0 <= i < |events| ==> events[i].eventId != k
    ensures DueMails(s[k := v], events, today, section, after) == DueMails(s, events, today, section, after)
    decreases |events|
  {
    if events != [] {
      assert forall i :: 0 <= i < |events| - 1 ==> events[1..][i] == events[i + 1];
      DueMailsIgnoresOtherKey(s, k, v, events[1..], today, section, after);
    }
  }

  /**
   * With distinct ids, a pass sends exactly the reference mails: one per event
   * that is due and whose occurrence date the loaded state does not hold, in
   * event order.
   */
  lemma {:induction false} RunMailsExactly(state: State, events: seq<Event>, today: Instant, section: Section, after: After)
    requires DistinctIds(events) && HasNext(events, today, after)
    ensures !Run(state, events, today, section, after).crashed
    ensures Run(state, events, today, section, after).mails == DueMails(state, events, today, section, after)
    decreases |events|
  {
    if events != [] {
      var next := after(events[0].rule, today).value;
      var (s1, m1) := VisitEvent(state, events[0], next, today, section);
      assert forall i :: 0 <= i < |events| - 1 ==> events[1..][i] == events[i + 1];
      assert HasNext(events[1..], today, after);
      RunMailsExactly(s1, events[1..], today, section, after);
      if s1 != state {
        DueMailsIgnoresOtherKey(state, events[0].eventId, IsoDate(next.date), events[1..], today, section, after);
      }
    }
  }

  /** A state that already records every event's next occurrence makes a silent, unchanging pass. */
  lemma {:induction false} SettledRunIsSilent(state: State, events: seq<Event>, today: Instant, section: Section, after: After)
    requires Settled(state, events, today, after)
    ensures Run(state, events, today, section, after) == PassResult(state, [], false)
    decreases |events|
  {
    if events != [] {
      var next := after(events[0].rule, today).value;
      assert AlreadyReminded(state, events[0].eventId, next);
      assert forall i :: 0 <= i < |events| - 1 ==> events[1..][i] == events[i + 1];
      SettledRunIsSilent(state, events[1..], today, section, after);
    }
  }

  /** When events sharing an id agree on the next date, a pass settles every event. */
  lemma {:induction false} RunSettles(state: State, events: seq<Event>, today: Instant, section: Section, after: After)
    requires ConsistentIds(events, today, after)
    ensures Settled(Run(state, events, today, section, after).state, events, today, after)
    decreases |events|
  {
    if events != [] {
      var next := after(events[0].rule, today).value;
      var (s1, m1) := VisitEvent(state, events[0], next, today, section);
      var rest := events[1..];
      assert forall i :: 0 <= i < |rest| ==> rest[i] == events[i + 1];
      assert ConsistentIds(rest, today, after);
      RunSettles(s1, rest, today, section, after);
      var r := Run(state, events, today, section, after);
      assert r.state == Run(s1, rest, today, section, after).state;
      var id := events[0].eventId;
      if j :| 0 <= j < |rest| && rest[j].eventId == id {
        assert events[j + 1].eventId == id;
      } else {
        RunKeepsOtherEntries(s1, rest, today, section, after, id);
      }
      forall i | 0 <= i < |events|
        ensures events[i].eventId in r.state
          && r.state[events[i].eventId] == IsoDate(after(events[i].rule, today).value.date)
      {
        if i > 0 { assert events[i] == rest[i - 1]; }
      }
    }
  }

  /**
   * A later pass whose events have their next occurrences on the dates the
   * earlier pass recorded sends no mail and changes no entry, even on the day
   * an occurrence falls due: an occurrence first seen before its due day is
   * never reminded about.
   */
  lemma LaterPassSendsNothing(
    state: State, events: seq<Event>, section: Section,
    today1: Instant, after1: After, today2: Instant, after2: After)
    requires ConsistentIds(events, today1, after1)
    requires HasNext(events, today2, after2)
    requires forall i :: 0 <= i < |events| ==>
      after2(events[i].rule, today2).value.date == after1(events[i].rule, today1).value.date
    ensures var r1 := Run(state, events, today1, section, after1);
      Run(r1.state, events, today2, section, after2) == PassResult(r1.state, [], false)
  {
    var r1 := Run(state, events, today1, section, after1);
    RunSettles(state, events, today1, section, after1);
    assert Settled(r1.state, events, today2, after2);
    SettledRunIsSilent(r1.state, events, today2, section, after2);
  }

  /** Running the pass twice with the same day and events: the second run sends nothing. */
  lemma RunTwiceSendsNothing(state: State, events: seq<Event>, today: Instant, section: Section, after: After)
    requires ConsistentIds(events, today, after)
    ensures var r1 := Run(state, events, today, section, after);
      !r1.crashed && Run(r1.state, events, today, section, after) == PassResult(r1.state, [], false)
  {
    RunCrashes(state, events, today, section, after);
    LaterPassSendsNothing(state, events, section, today, after, today, after);
  }

  /** With dateutil's inclusive `after`, a negative lead time never mails anything. */
  lemma {:induction false} NegativeRemindNeverMails(state: State, events: seq<Event>, today: Instant, section: Section, after: After)
    requires Inclusive(after) && section.remind < 0
    ensures Run(state, events, today, section, after).mails == []
    decreases |events|
  {
    if events != [] && after(events[0].rule, today).Some? {
      var next := after(events[0].rule, today).value;
      InclusiveNextNotNegative(today, next);
      var (s1, m1) := VisitEvent(state, events[0], next, today, section);
      NegativeRemindNeverMails(s1, events[1..], today, section, after);
    }
  }

  // ---------------------------------------------------------------------
  // Concrete runs

  /** A reminder is lost when its occurrence is first looked at before its due day. */
  lemma ReminderLostAfterEarlySighting(e: Event, section: Section)
    requires section.remind == 3
    ensures var occurrence := Instant(Ymd(2024, 1, 12), 43200);
      var firstRun := Instant(Ymd(2024, 1, 5), 32400);
      var dueDay := Instant(Ymd(2024, 1, 9), 32400);
      var after: After := (r, t) => Some(occurrence);
      var r1 := Run(map[], [e], firstRun, section, after);
      && r1.mails == []
      && ShouldRemind(dueDay, occurrence, section.remind)
      && Run(r1.state, [e], dueDay, section, after).mails == []
  {
    var occurrence := Instant(Ymd(2024, 1, 12), 43200);
    var firstRun := Instant(Ymd(2024, 1, 5), 32400);
    var dueDay := Instant(Ymd(2024, 1, 9), 32400);
    var after: After := (r, t) => Some(occurrence);
    assert DaysBetween(firstRun.date, occurrence.date) == 7;
    assert DaysBetween(dueDay.date, occurrence.date) == 3;
    assert [e][1..] == [];
    var s1 := map[e.eventId := IsoDate(occurrence.date)];
    assert VisitEvent(map[], e, occurrence, firstRun, section) == (s1, []);
    assert Run(map[], [e], firstRun, section, after) == Run(s1, [], firstRun, section, after);
    assert AlreadyReminded(s1, e.eventId, occurrence);
    assert VisitEvent(s1, e, occurrence, dueDay, section) == (s1, []);
    assert Run(s1, [e], dueDay, section, after) == Run(s1, [], dueDay, section, after);
  }

  /**
   * Two events with one id and different next dates: the one that is due is
   * mailed again on every pass of that day, because the other keeps
   * overwriting the entry.
   */
  lemma DuplicateIdsRemail(section: Section, id: string)
    requires section.remind == 0
    ensures var today := Instant(Ymd(2024, 1, 12), 0);
      var rule1 := DateutilRule(Daily, map[], today);
      var rule2 := DateutilRule(Yearly, map[], today);
      var e1 := Event(id, rule1, "standup", "");
      var e2 := Event(id, rule2, "review", "");
      var n1 := Instant(Ymd(2024, 1, 12), 36000);
      var n2 := Instant(Ymd(2024, 6, 1), 36000);
      var after: After := (r, t) => if r == rule1 then Some(n1) else Some(n2);
      var r1 := Run(map[], [e1, e2], today, section, after);
      && r1.mails == [MailFor(section, e1)]
      && Run(r1.state, [e1, e2], today, section, after).mails == [MailFor(section, e1)]
      && Run(r1.state, [e1, e2], today, section, after).state == r1.state
  {
    var today := Instant(Ymd(2024, 1, 12), 0);
    var rule1 := DateutilRule(Daily, map[], today);
    var rule2 := DateutilRule(Yearly, map[], today);
    var e1 := Event(id, rule1, "standup", "");
    var e2 := Event(id, rule2, "review", "");
    var n1 := Instant(Ymd(2024, 1, 12), 36000);
    var n2 := Instant(Ymd(2024, 6, 1), 36000);
    var after: After := (r, t) => if r == rule1 then Some(n1) else Some(n2);
    IsoDateInjective(n1.date, n2.date);
    assert DaysBetween(today.date, n1.date) == 0;
    assert DaysBetween(today.date, n2.date) != 0 by {
      DaysBetweenSign(today.date, n2.date);
    }
    var events := [e1, e2];
    assert events[1..] == [e2] && [e2][1..] == [];
    assert rule1 != rule2;
    assert after(rule1, today) == Some(n1) && after(rule2, today) == Some(n2);
    var d1, d2 := IsoDate(n1.date), IsoDate(n2.date);
    // first pass: e1 is new and due, e2 is new and not due
    assert VisitEvent(map[], e1, n1, today, section) == (map[id := d1], [MailFor(section, e1)]);
    assert !AlreadyReminded(map[id := d1], id, n2);
    assert map[id := d1][id := d2] == map[id := d2];
    assert !ShouldRemind(today, n2, section.remind);
    assert VisitEvent(map[id := d1], e2, n2, today, section) == (map[id := d2], []);
    assert Run(map[id := d1], [e2], today, section, after) == PassResult(map[id := d2], [], false);
    assert Run(map[], events, today, section, after) == PassResult(map[id := d2], [MailFor(section, e1)], false);
    // second pass: the entry holds e2's date, so e1 is due and mailed again
    assert !AlreadyReminded(map[id := d2], id, n1);
    assert map[id := d2][id := d1] == map[id := d1];
    assert VisitEvent(map[id := d2], e1, n1, today, section) == (map[id := d1], [MailFor(section, e1)]);
    assert VisitEvent(map[id := d1], e2, n2, today, section) == (map[id := d2], []);
    assert Run(map[id := d2], events, today, section, after) == PassResult(map[id := d2], [MailFor(section, e1)], false);
  }

  /**
   * An exhausted rule after a due event: every run of that day mails the due
   * event, then raises before saving, so the state file never changes and the
   * next run mails again.
   */
  lemma ExhaustedRuleRemails(d: Disk, section: Section)
    requires section.remind == 0
    requires AbsPath(d.cwd, StateJs(section.datadir)) in d.entries
    requires d.entries[AbsPath(d.cwd, StateJs(section.datadir))] == Regular(StateJson(map[]))
    ensures var today := Instant(Ymd(2024, 1, 12), 0);
      var rule1 := DateutilRule(Daily, map[], today);
      var rule2 := DateutilRule(Yearly, map[], today);
      var e1 := Event("standup", rule1, "standup", "");
      var e2 := Event("review", rule2, "review", "");
      var n1 := Instant(Ymd(2024, 1, 12), 36000);
      var after: After := (r, t) => if r == rule1 then Some(n1) else None;
      var h1 := HandleCfgSpec(d, section, today, [e1, e2], after);
      && h1 == Outcome(Failed(NoOccurrence), d, [MailFor(section, e1)])
      && HandleCfgSpec(h1.disk, section, today, [e1, e2], after) == h1
  {
    var today := Instant(Ymd(2024, 1, 12), 0);
    var rule1 := DateutilRule(Daily, map[], today);
    var rule2 := DateutilRule(Yearly, map[], today);
    var e1 := Event("standup", rule1, "standup", "");
    var e2 := Event("review", rule2, "review", "");
    var n1 := Instant(Ymd(2024, 1, 12), 36000);
    var after: After := (r, t) => if r == rule1 then Some(n1) else None;
    var events := [e1, e2];
    assert events[1..] == [e2];
    assert rule1 != rule2;
    assert after(rule1, today) == Some(n1) && after(rule2, today) == None;
    assert LoadStateSpec(d, section.datadir) == (Ok(map[]), d);
    assert DaysBetween(today.date, n1.date) == 0;
    var s1 := map["standup" := IsoDate(n1.date)];
    assert VisitEvent(map[], e1, n1, today, section) == (s1, [MailFor(section, e1)]);
    assert Run(s1, [e2], today, section, after) == PassResult(s1, [], true);
    assert Run(map[], events, today, section, after) == PassResult(s1, [MailFor(section, e1)], true);
  }

  // ---------------------------------------------------------------------
  // The pass as written, with the arity error in the send call

  /**
   * The loop as the source writes it: the call to `send_mail_smtp` passes six
   * arguments to a function of seven parameters, so every due event raises
   * `TypeError` before anything is sent.
   */
  function RunAsWritten(state: State, events: seq<Event>, today: Instant, section: Section, after: After)
    : (r: PassResult)
    decreases |events|
  {
    if events == [] then PassResult(state, [], false)
    else match after(events[0].rule, today)
      case None => PassResult(state, [], true)
      case Some(next) =>
        if !AlreadyReminded(state, events[0].eventId, next) && ShouldRemind(today, next, section.remind) then
          PassResult(state, [], true)
        else
          RunAsWritten(VisitEvent(state, events[0], next, today, section).0, events[1..], today, section, after)
  }

  /**
   * As written the pass never delivers a reminder: it raises exactly when the
   * intended pass would raise or would send a mail.
   */
  lemma {:induction false} AsWrittenNeverMails(state: State, events: seq<Event>, today: Instant, section: Section, after: After)
    ensures RunAsWritten(state, events, today, section, after).mails == []
    ensures RunAsWritten(state, events, today, section, after).crashed
      <==> Run(state, events, today, section, after).crashed || |Run(state, events, today, section, after).mails| > 0
    decreases |events|
  {
    if events != [] && after(events[0].rule, today).Some? {
      var next := after(events[0].rule, today).value;
      var (s1, m1) := VisitEvent(state, events[0], next, today, section);
      AsWrittenNeverMails(s1, events[1..], today, section, after);
    }
  }

  // ---------------------------------------------------------------------
  // handle_cfg: load, loop, save

  /** Why a run of `handle_cfg` failed. */
  datatype RunError = StoreFailed(error: StoreError) | NoOccurrence

  datatype Status = Done | Failed(reason: RunError)

  /** The effect of one run: its status, the file system afterwards, and the mails sent. */
  datatype Outcome = Outcome(status: Status, disk: Disk, mails: seq<Mail>)

  /** `handle_cfg` after configuration and calendar parsing: load the state, run the pass, save once. */
  function HandleCfgSpec(d: Disk, section: Section, today: Instant, events: seq<Event>, after: After): (h: Outcome)
  {
    var (loaded, d1) := LoadStateSpec(d, section.datadir);
    if loaded.Err? then Outcome(Failed(StoreFailed(loaded.error)), d1, [])
    else
      var r := Run(loaded.value, events, today, section, after);
      if r.crashed then Outcome(Failed(NoOccurrence), d1, r.mails)
      else
        var (saved, d2) := SaveStateSpec(d1, section.datadir, r.state);
        Outcome(if saved.Ok? then Done else Failed(StoreFailed(saved.error)), d2, r.mails)
  }

  /**
   * A state file that cannot be created stops the run before any mail, and
   * a pass that raises sends only the mails of the events before and leaves
   * the state file as loading left it.
   */
  lemma HandleCfgFailures(d: Disk, section: Section, today: Instant, events: seq<Event>, after: After)
    ensures var h := HandleCfgSpec(d, section, today, events, after);
      var (loaded, d1) := LoadStateSpec(d, section.datadir);
      && (loaded.Err? ==> h.mails == [] && h.status == Failed(StoreFailed(loaded.error)))
      && (loaded.Ok? && !HasNext(events, today, after) ==> h.status == Failed(NoOccurrence) && h.disk == d1)
      && (loaded.Ok? && HasNext(events, today, after) ==> h.status != Failed(NoOccurrence))
  {
    var (loaded, d1) := LoadStateSpec(d, section.datadir);
    if loaded.Ok? {
      RunCrashes(loaded.value, events, today, section, after);
    }
  }

  /**
   * Two runs on the same day with the same events: once the first completes,
   * the second sends no mail, completes, and leaves the file system as the
   * first left it.
   */
  lemma HandleCfgTwiceSendsNothing(d: Disk, section: Section, today: Instant, events: seq<Event>, after: After)
    requires ConsistentIds(events, today, after)
    requires HandleCfgSpec(d, section, today, events, after).status == Done
    ensures var h1 := HandleCfgSpec(d, section, today, events, after);
      var h2 := HandleCfgSpec(h1.disk, section, today, events, after);
      h2.mails == [] && h2.status == Done && h2.disk == h1.disk
  {
    var (loaded, d1) := LoadStateSpec(d, section.datadir);
    var r1 := Run(loaded.value, events, today, section, after);
    RunTwiceSendsNothing(loaded.value, events, today, section, after);
    var h1 := HandleCfgSpec(d, section, today, events, after);
    SaveThenLoad(d1, section.datadir, r1.state);
    var abs := AbsPath(h1.disk.cwd, StateJs(section.datadir));
    assert h1.disk.entries[abs := Regular(StateJson(r1.state))] == h1.disk.entries;
  }

  /** A pass result with the mails `done` sent before its own. */
  function Prefixed(done: seq<Mail>, r: PassResult): (p: PassResult)
    ensures p.state == r.state && p.crashed == r.crashed && |p.mails| == |done| + |r.mails|
  {
    r.(mails := done + r.mails)
  }

  lemma PrefixedTwice(a: seq<Mail>, b: seq<Mail>, r: PassResult)
    ensures Prefixed(a, Prefixed(b, r)) == Prefixed(a + b, r)
  {
    assert a + (b + r.mails) == (a + b) + r.mails;
  }

  /** One turn of the pass, seen from the event at index `i`. */
  lemma RunStep(state: State, events: seq<Event>, i: nat, today: Instant, section: Section, after: After)
    requires i < |events|
    ensures after(events[i].rule, today).None? ==>
      Run(state, events[i..], today, section, after) == PassResult(state, [], true)
    ensures after(events[i].rule, today).Some? ==>
      var v := VisitEvent(state, events[i], after(events[i].rule, today).value, today, section);
      Run(state, events[i..], today, section, after) == Prefixed(v.1, Run(v.0, events[i + 1..], today, section, after))
  {
    assert events[i..][0] == events[i] && events[i..][1..] == events[i + 1..];
  }

  /**
   * The loop's invariant across one turn: what remains of the pass, preceded
   * by the mails already sent, is the whole pass.
   */
  lemma PassStep(target: PassResult, done: seq<Mail>, state: State, events: seq<Event>, i: nat,
                 today: Instant, section: Section, after: After)
    requires i < |events|
    requires target == Prefixed(done, Run(state, events[i..], today, section, after))
    ensures after(events[i].rule, today).None? ==> target == PassResult(state, done, true)
    ensures after(events[i].rule, today).Some? ==>
      var v := VisitEvent(state, events[i], after(events[i].rule, today).value, today, section);
      target == Prefixed(done + v.1, Run(v.0, events[i + 1..], today, section, after))
  {
    RunStep(state, events, i, today, section, after);
    if after(events[i].rule, today).None? {
      assert done + [] == done;
    } else {
      var v := VisitEvent(state, events[i], after(events[i].rule, today).value, today, section);
      PrefixedTwice(done, v.1, Run(v.0, events[i + 1..], today, section, after));
    }
  }

  /**
   * The `for` loop of `handle_cfg`: for each event, take its next occurrence,
   * skip it when the state already holds that date, hand a reminder to the
   * mail transport when due, and record the date either way. `sent` lists the
   * reminders handed over, in order; an exhausted rule ends the loop with a
   * crash.
   */
  method ProcessEvents(state0: State, section: Section, today: Instant, events: seq<Event>, after: After)
    returns (state: State, crashed: bool, sent: seq<Mail>)
    ensures PassResult(state, sent, crashed) == Run(state0, events, today, section, after)
  {
    state := state0;
    sent := [];
    ghost var target := Run(state0, events, today, section, after);
    var i := 0;
    assert events[0..] == events;
    assert target == Prefixed([], target);
    while i < |events|
      invariant 0 <= i <= |events|
      invariant target == Prefixed(sent, Run(state, events[i..], today, section, after))
    {
      PassStep(target, sent, state, events, i, today, section, after);
      var e := events[i];
      var next := after(e.rule, today);
      if next.None? {
        return state, true, sent;
      }
      var n := next.value;
      ghost var v := VisitEvent(state, e, n, today, section);
      ghost var sent0 := sent;
      var previous := if e.eventId in state then Some(state[e.eventId]) else None;
      if previous.Some? && previous.value != "" && previous.value == IsoDate(n.date) {
        assert v == (state, []) && sent + [] == sent;
        i := i + 1;
        continue;
      }
      if ShouldRemind(today, n, section.remind) {
        sent := sent + [MailFor(section, e)];
      }
      state := state[e.eventId := IsoDate(n.date)];
      assert v.0 == state && sent == sent0 + v.1;
      i := i + 1;
    }
    assert events[i..] == [] && sent + [] == sent;
    crashed := false;
  }

  /**
   * `handle_cfg` once the configuration and the calendar are parsed: load the
   * state, run the loop, save the state once at the end. `sent` lists the
   * reminders handed to the mail transport.
   */
  method HandleCfg(fs: FileSystem, section: Section, today: Instant, events: seq<Event>, after: After)
    returns (status: Status, sent: seq<Mail>)
    modifies fs
    ensures Outcome(status, fs.Snapshot(), sent) == HandleCfgSpec(old(fs.Snapshot()), section, today, events, after)
  {
    var loaded := fs.LoadState(section.datadir);
    if loaded.Err? {
      return Failed(StoreFailed(loaded.error)), [];
    }
    var state, crashed;
    state, crashed, sent := ProcessEvents(loaded.value, section, today, events, after);
    if crashed {
      return Failed(NoOccurrence), sent;
    }
    var saved := fs.SaveState(section.datadir, state);
    status := if saved.Ok? then Done else Failed(StoreFailed(saved.error));
  }
}
