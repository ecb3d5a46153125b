/** `logEmailAttempt` (backend/server.js): one audit record per send attempt,
    appended to the log of the calendar day the clock reports. Each day's log is a
    separate file, `email_log_<date>.json`, rewritten whole on every append; here the
    directory of those files is a map from date to its sequence of entries. */
module DeliveryLog {
  import opened Wrappers
  import opened Text

  /** The `errorDetails` object a caller hands over: `code` and `message` of a
      transport error, and `type` (`kind` here) for the diagnostic send. Its JSON
      text is not modelled; the object itself is stored. */
  datatype Details = Details(code: Option<string>, message: Option<string>, kind: Option<string>)

  /** The arguments of one `logEmailAttempt(recipientEmail, success, messageId,
      errorDetails)` call; an omitted argument is `None`. */
  datatype Attempt = Attempt(recipient: string, success: bool, messageId: Option<string>, details: Option<Details>)

  /** One record of a day's log file. */
  datatype Entry = Entry(
    timestamp: string,
    recipient: string,
    success: bool,
    messageId: Option<string>,
    errorDetails: Option<Details>)

  /** The record written for an attempt made at `timestamp`: the caller's fields,
      with `messageId` and `errorDetails` null unless the caller passed them. */
  function MakeEntry(timestamp: string, a: Attempt): Entry
  {
    Entry(timestamp, a.recipient, a.success, a.messageId, a.details)
  }

  /** The file date of an ISO-8601 clock reading: the text before the first `T`. */
  function DateOf(clock: string): string
  {
    Split(clock, "T")[0]
  }

  /** For a reading `<date>T<time>` the file date is `<date>`. */
  lemma DateOfIsoReading(date: string, time: string)
    requires forall k :: 0 <= k < |date| ==> date[k] != 'T'
    ensures DateOf(date + "T" + time) == date
  {
    var clock := date + "T" + time;
    OccursAtChar(clock, 'T', |date|);
    var k := IndexOf(clock, "T").value;
    OccursAtChar(clock, 'T', k);
    assert k == |date|;
    assert clock[..|date|] == date;
  }

  /** The entries of `date`'s log; a day without a file has none. */
  function DayLog(days: map<string, seq<Entry>>, date: string): seq<Entry>
  {
    if date in days then days[date] else []
  }

  /** The store after appending `e` to `date`'s log. A log that cannot be read or
      parsed aborts the append and leaves every log as it was. */
  function Appended(days: map<string, seq<Entry>>, unreadable: set<string>, date: string, e: Entry)
    : (r: map<string, seq<Entry>>)
    ensures date !in unreadable ==> DayLog(r, date) == DayLog(days, date) + [e]
    ensures date in unreadable ==> r == days
    ensures forall d :: d != date ==> (d in r <==> d in days) && DayLog(r, d) == DayLog(days, d)
  {
    if date in unreadable then days else days[date := DayLog(days, date) + [e]]
  }

  /** The store after appending each of `es`, in order, to `date`'s log. */
  function AppendedAll(days: map<string, seq<Entry>>, unreadable: set<string>, date: string, es: seq<Entry>)
    : map<string, seq<Entry>>
    decreases |es|
  {
    if es == [] then days
    else AppendedAll(Appended(days, unreadable, date, es[0]), unreadable, date, es[1..])
  }

  /** N appends to the same readable day leave N more entries in call order at the end
      of that day's log, and no other day's log changes. */
  lemma {:induction false} AppendsKeepCallOrder(
    days: map<string, seq<Entry>>, unreadable: set<string>, date: string, es: seq<Entry>)
    requires date !in unreadable
    ensures DayLog(AppendedAll(days, unreadable, date, es), date) == DayLog(days, date) + es
    ensures forall d :: d != date ==>
      (d in AppendedAll(days, unreadable, date, es) <==> d in days) &&
      DayLog(AppendedAll(days, unreadable, date, es), d) == DayLog(days, d)
    decreases |es|
  {
    if es != [] {
      var next := Appended(days, unreadable, date, es[0]);
      AppendsKeepCallOrder(next, unreadable, date, es[1..]);
      assert DayLog(days, date) + [es[0]] + es[1..] == DayLog(days, date) + es;
    }
  }

  /** Every entry of every day's log carries a timestamp of that day. */
  ghost predicate Dated(days: map<string, seq<Entry>>)
  {
    forall d, i :: d in days && 0 <= i < |days[d]| ==> DateOf(days[d][i].timestamp) == d
  }

  /** Filing an entry under the date of its own timestamp keeps every log dated. */
  lemma AppendedKeepsDated(days: map<string, seq<Entry>>, unreadable: set<string>, e: Entry)
    requires Dated(days)
    ensures Dated(Appended(days, unreadable, DateOf(e.timestamp), e))
  {
    var date := DateOf(e.timestamp);
    var r: map<string, seq<Entry>> := Appended(days, unreadable, date, e);
    forall d, i | d in r && 0 <= i < |r[d]| ensures DateOf(r[d][i].timestamp) == d {
      if d == date && date !in unreadable {
        assert r[d] == DayLog(days, date) + [e];
        if i < |DayLog(days, date)| {
          assert r[d][i] == days[d][i];
        }
      } else {
        assert DayLog(r, d) == DayLog(days, d);
      }
    }
  }

  /** When the two clock readings of one attempt fall on different days, the entry is
      filed under a date that is not its own and the logs are no longer dated. */
  lemma MisfiledWhenReadingsDiffer(
    days: map<string, seq<Entry>>, unreadable: set<string>, timestamp: string, clock: string, a: Attempt)
    requires DateOf(clock) !in unreadable && DateOf(timestamp) != DateOf(clock)
    ensures var r := Appended(days, unreadable, DateOf(clock), MakeEntry(timestamp, a));
      DateOf(clock) in r && !Dated(r)
  {
    var date := DateOf(clock);
    var r: map<string, seq<Entry>> := Appended(days, unreadable, date, MakeEntry(timestamp, a));
    var n := |DayLog(days, date)|;
    assert DayLog(r, date)[n] == MakeEntry(timestamp, a);
  }

  /** The last millisecond of 1 January 2025 is read as that day. */
  lemma LastMillisecondOfDay()
    ensures DateOf("2025-01-01T23:59:59.999Z") == "2025-01-01"
  {
    var day, time := "2025-01-01", "23:59:59.999Z";
    assert day + "T" + time == "2025-01-01T23:59:59.999Z";
    DateOfIsoReading(day, time);
  }

  /** The first millisecond of 2 January 2025 is read as that day. */
  lemma FirstMillisecondOfDay()
    ensures DateOf("2025-01-02T00:00:00.000Z") == "2025-01-02"
  {
    var day, time := "2025-01-02", "00:00:00.000Z";
    assert day + "T" + time == "2025-01-02T00:00:00.000Z";
    DateOfIsoReading(day, time);
  }

  /** The directory of day logs. `days` holds the logs that parse; `unreadable` the
      dates whose file exists but cannot be read or parsed. */
  class LogStore {
    var days: map<string, seq<Entry>>
    var unreadable: set<string>

    /** A date has at most one file, which either parses or does not. */
    ghost predicate Valid()
      reads this
    {
      days.Keys !! unreadable
    }

    constructor (days: map<string, seq<Entry>>, unreadable: set<string>)
      requires days.Keys !! unreadable
      ensures Valid() && this.days == days && this.unreadable == unreadable
    {
      this.days := days;
      this.unreadable := unreadable;
    }

    /** `logEmailAttempt`: the entry's timestamp and the file date come from two
        separate clock readings, `timestamp` and `clock`, as in the source. Read,
        append, write back; a failure to parse the day's file is swallowed and leaves
        the store as it was. */
    method Record(timestamp: string, clock: string, a: Attempt)
      requires Valid()
      modifies this
      ensures Valid() && unreadable == old(unreadable)
      ensures days == Appended(old(days), old(unreadable), DateOf(clock), MakeEntry(timestamp, a))
      // afterwards the day has a log exactly when its file parses
      ensures DateOf(clock) in days <==> DateOf(clock) !in unreadable
    {
      var entry := MakeEntry(timestamp, a);
      var date := DateOf(clock);
      if date in unreadable {
        return;
      }
      var logs: seq<Entry> := [];
      if date in days {
        logs := days[date];
      }
      logs := logs + [entry];
      days := days[date := logs];
    }

    /** `logEmailAttempt` with one clock reading: the entry is filed under the date of
        its own timestamp, so a store whose logs are all dated stays so. */
    method RecordAt(timestamp: string, a: Attempt)
      requires Valid()
      modifies this
      ensures Valid() && unreadable == old(unreadable)
      ensures days == Appended(old(days), old(unreadable), DateOf(timestamp), MakeEntry(timestamp, a))
      ensures old(Dated(days)) ==> Dated(days)
      ensures DateOf(timestamp) in days <==> DateOf(timestamp) !in unreadable
    {
      var entry := MakeEntry(timestamp, a);
      var date := DateOf(timestamp);
      if date in unreadable {
        return;
      }
      var logs: seq<Entry> := [];
      if date in days {
        logs := days[date];
      }
      logs := logs + [entry];
      ghost var before := days;
      days := days[date := logs];
      if Dated(before) {
        AppendedKeepsDated(before, unreadable, entry);
      }
    }
  }
}
