/** Extraction jobs: what the status messages of an extractor do to the record of its job. */
module Jobs {
  import opened Types
  import opened Strings

  datatype Status = Created | Started | Processing | Succeeded | Errored | Skipped | Resubmitted

  predicate Terminal(s: Status) {
    s.Succeeded? || s.Errored? || s.Skipped?
  }

  // ----- Messages -----

  predicate StartsWith(s: string, head: string) {
    head <= s
  }

  /** `s.replace(part, "")`: the occurrences from left to right. */
  function Without(s: string, part: string): (r: string)
    requires part != ""
    ensures |r| <= |s|
  {
    if |s| < |part| then s
    else if part <= s then Without(s[|part|..], part)
    else [s[0]] + Without(s[1..], part)
  }

  /** The two spellings of a status in front of a message. */
  function Long(s: Status): string {
    match s
    case Started => "StatusMessage.start: "
    case Succeeded => "StatusMessage.done: "
    case Errored => "StatusMessage.error: "
    case Resubmitted => "StatusMessage.retry: "
    case Skipped => "StatusMessage.skip: "
    case _ => "StatusMessage.processing: "
  }

  function Short(s: Status): string {
    match s
    case Started => "STARTED: "
    case Succeeded => "SUCCEEDED: "
    case Errored => "ERROR: "
    case Resubmitted => "RESUBMITTED: "
    case Skipped => "SKIPPED: "
    case _ => "PROCESSING: "
  }

  function Cleaned(msg: string, s: Status): string {
    Without(Without(msg, Long(s)), Short(s))
  }

  datatype Parsed = Parsed(status: Status, text: string)

  predicate Announces(msg: string, s: Status) {
    StartsWith(msg, Long(s)) || StartsWith(msg, Short(s))
  }

  /** The branches in their order. */
  function StatusOf(msg: string): Option<Status> {
    if Announces(msg, Started) || EndsWith(msg, "Started processing.") then Some(Started)
    else if Announces(msg, Succeeded) || EndsWith(msg, "Done processing.") then Some(Succeeded)
    else if Announces(msg, Errored) then Some(Errored)
    else if Announces(msg, Resubmitted) then Some(Resubmitted)
    else if Announces(msg, Skipped) then Some(Skipped)
    else if Announces(msg, Processing) then Some(Processing)
    else None
  }

  /** Every branch takes off its own two spellings. The last one returns a bare status that the caller
      cannot take apart: an unrecognised message is an exception. */
  function ParseMessageStatus(msg: string): Option<Parsed> {
    match StatusOf(msg)
    case None => None
    case Some(s) => Some(Parsed(s, Cleaned(msg, s)))
  }

  // ----- The job -----

  datatype Job = Job(status: Status, started: Option<int>, updated: Option<int>, finished: Option<int>,
                     duration: Option<int>, latest: Option<string>)

  const NEW_JOB := Job(Created, None, None, None, None, None)

  datatype Message = Message(text: string, time: int)

  datatype LogLine = LogLine(job: Id, text: string, time: int)

  /** A message as the parser understands it. */
  datatype Heard = Heard(parsed: Option<Parsed>, time: int)

  function Hear(m: Message): Heard {
    Heard(ParseMessageStatus(m.text), m.time)
  }

  /** What one message leaves of the job: nothing is saved of an unrecognised one. */
  function Received(job: Job, h: Heard): Job {
    match h.parsed
    case None => job
    case Some(p) => Took(job, p, h.time)
  }

  /** A terminal status is never overridden; a start is entered, an end is entered. */
  function Took(job: Job, p: Parsed, time: int): Job {
    Job(if Terminal(job.status) then job.status else p.status,
        if p.status == Started then Some(time) else job.started,
        Some(time),
        if Terminal(p.status) then Some(time) else job.finished,
        if job.started.Some? then Some(time - job.started.value)
        else if p.status == Started then Some(0) else job.duration,
        Some(p.text))
  }

  class Listener {
    var jobs: map<Id, Job>
    var log: seq<LogLine>

    /** `callback`: builds up the fields to set, sets them, and logs the message. */
    method Callback(id: Id, m: Message) returns (r: Outcome<bool>)
      modifies this
      ensures id !in old(jobs) ==> r == Ok(false) && jobs == old(jobs) && log == old(log)
      ensures id in old(jobs) ==> jobs == old(jobs)[id := Received(old(jobs)[id], Hear(m))]
      ensures id in old(jobs) ==>
                match ParseMessageStatus(m.text)
                case None => r == Err(500) && log == old(log)
                case Some(p) => r == Ok(true) && log == old(log) + [LogLine(id, p.text, m.time)]
    {
      if id !in jobs {
        return Ok(false);
      }
      var job := jobs[id];
      var parsed := ParseMessageStatus(m.text);
      if parsed.None? {
        return Err(500);
      }
      var incoming := parsed.value.status;
      var cleaned := incoming;
      if Terminal(job.status) {
        cleaned := job.status;
      }
      var updates := job.(status := cleaned, latest := Some(parsed.value.text), updated := Some(m.time));
      if job.started.Some? {
        updates := updates.(duration := Some(m.time - job.started.value));
      } else if incoming == Started {
        updates := updates.(duration := Some(0));
      }
      if incoming == Started {
        updates := updates.(started := Some(m.time));
      } else if Terminal(incoming) {
        updates := updates.(finished := Some(m.time));
      }
      jobs := jobs[id := updates];
      log := log + [LogLine(id, parsed.value.text, m.time)];
      return Ok(true);
    }
  }

  // ----- Runs of messages -----

  /** The job after a sequence of messages, recognised or not. */
  function After(hs: seq<Heard>): Job {
    if hs == [] then NEW_JOB else Received(After(hs[..|hs| - 1]), hs[|hs| - 1])
  }

  /** A message that was recognised. */
  datatype Event = Event(parsed: Parsed, time: int)

  function Events(hs: seq<Heard>): seq<Event> {
    if hs == [] then []
    else
      var last := hs[|hs| - 1];
      Events(hs[..|hs| - 1]) + if last.parsed.Some? then [Event(last.parsed.value, last.time)] else []
  }

  /** Only the recognised messages count. */
  function Ran(es: seq<Event>): Job {
    if es == [] then NEW_JOB else Took(Ran(es[..|es| - 1]), es[|es| - 1].parsed, es[|es| - 1].time)
  }

  lemma RanNext(es: seq<Event>, e: Event)
    ensures Ran(es + [e]) == Took(Ran(es), e.parsed, e.time)
  {
    assert (es + [e])[..|es|] == es;
  }

  lemma {:induction false} RunTakesEvents(hs: seq<Heard>)
    ensures After(hs) == Ran(Events(hs))
  {
    if hs != [] {
      var front, last := hs[..|hs| - 1], hs[|hs| - 1];
      RunTakesEvents(front);
      if last.parsed.Some? {
        RanNext(Events(front), Event(last.parsed.value, last.time));
      } else {
        assert Events(front) + [] == Events(front);
      }
    }
  }

  function StatusAt(es: seq<Event>, i: nat): Status
    requires i < |es|
  {
    es[i].parsed.status
  }

  /** The first terminal status received. */
  predicate FirstEndAt(es: seq<Event>, i: nat) {
    i < |es| && Terminal(StatusAt(es, i)) && forall j :: 0 <= j < i ==> !Terminal(StatusAt(es, j))
  }

  predicate NoEnd(es: seq<Event>) {
    forall i :: 0 <= i < |es| ==> !Terminal(StatusAt(es, i))
  }

  /** First terminal, else last, else created. */
  ghost predicate StatusFits(es: seq<Event>, status: Status) {
    && (NoEnd(es) ==> status == if es == [] then Created else StatusAt(es, |es| - 1))
    && (!NoEnd(es) ==> exists i :: 0 <= i < |es| && FirstEndAt(es, i) && status == StatusAt(es, i))
  }

  lemma StatusFitsNext(es: seq<Event>, status: Status, e: Event)
    requires StatusFits(es, status)
    ensures StatusFits(es + [e], if Terminal(status) then status else e.parsed.status)
    ensures Terminal(status) <==> !NoEnd(es)
  {
    var more := es + [e];
    assert more[|es|] == e && forall i :: 0 <= i < |es| ==> StatusAt(more, i) == StatusAt(es, i);
    if NoEnd(es) {
      if Terminal(e.parsed.status) {
        assert FirstEndAt(more, |es|);
      }
    } else {
      var i :| 0 <= i < |es| && FirstEndAt(es, i) && status == StatusAt(es, i);
      assert FirstEndAt(more, i) && more[i] == es[i];
    }
  }

  lemma {:induction false} StatusRan(es: seq<Event>)
    ensures StatusFits(es, Ran(es).status)
    ensures Terminal(Ran(es).status) <==> !NoEnd(es)
  {
    if es != [] {
      var front, last := es[..|es| - 1], es[|es| - 1];
      assert es == front + [last];
      StatusRan(front);
      RanNext(front, last);
      StatusFitsNext(front, Ran(front).status, last);
      assert NoEnd(es) <==> NoEnd(front) && !Terminal(last.parsed.status) by {
        assert forall i :: 0 <= i < |front| ==> StatusAt(es, i) == StatusAt(front, i);
        assert StatusAt(es, |front|) == last.parsed.status;
      }
    }
  }

  /** The status is the first terminal one received, else the last recognised one, else created. */
  lemma StatusOfARun(hs: seq<Heard>)
    ensures StatusFits(Events(hs), After(hs).status)
  {
    RunTakesEvents(hs);
    StatusRan(Events(hs));
  }

  /** The time of the last event with one of the given statuses. */
  function LastTime(es: seq<Event>, some: set<Status>): Option<int> {
    if es == [] then None
    else if es[|es| - 1].parsed.status in some then Some(es[|es| - 1].time)
    else LastTime(es[..|es| - 1], some)
  }

  const ANY: set<Status> := {Created, Started, Processing, Succeeded, Errored, Skipped, Resubmitted}
  const ENDS: set<Status> := {Succeeded, Errored, Skipped}

  lemma LastTimeNext(es: seq<Event>, e: Event, some: set<Status>)
    ensures LastTime(es + [e], some) == if e.parsed.status in some then Some(e.time) else LastTime(es, some)
  {
    assert (es + [e])[..|es|] == es;
  }

  lemma {:induction false} TimesRan(es: seq<Event>)
    ensures Ran(es).updated == LastTime(es, ANY)
    ensures Ran(es).started == LastTime(es, {Started})
    ensures Ran(es).finished == LastTime(es, ENDS)
    ensures Ran(es).finished.None? <==> NoEnd(es)
  {
    if es != [] {
      var front, last := es[..|es| - 1], es[|es| - 1];
      assert es == front + [last];
      TimesRan(front);
      RanNext(front, last);
      LastTimeNext(front, last, ANY);
      LastTimeNext(front, last, {Started});
      LastTimeNext(front, last, ENDS);
      assert forall i :: 0 <= i < |front| ==> StatusAt(es, i) == StatusAt(front, i);
      assert StatusAt(es, |front|) == last.parsed.status;
    }
  }

  /** The times are those of the last message, the last start and the last end received. */
  lemma TimesOfARun(hs: seq<Heard>)
    ensures After(hs).updated == LastTime(Events(hs), ANY)
    ensures After(hs).started == LastTime(Events(hs), {Started})
    ensures After(hs).finished == LastTime(Events(hs), ENDS)
  {
    RunTakesEvents(hs);
    TimesRan(Events(hs));
  }

  /** The latest message kept is the text of the last recognised one, without its spelling. */
  lemma LatestOfARun(hs: seq<Heard>)
    ensures var es := Events(hs);
            After(hs).latest == if es == [] then None else Some(es[|es| - 1].parsed.text)
  {
    RunTakesEvents(hs);
  }

  /** A job is in a terminal status exactly when its finishing time is set. */
  lemma FinishedIffTerminal(hs: seq<Heard>)
    ensures Terminal(After(hs).status) <==> After(hs).finished.Some?
  {
    RunTakesEvents(hs);
    StatusRan(Events(hs));
    TimesRan(Events(hs));
  }

  /** The last message against the last start before it: no time has passed at a first start, and none
      is known without a start. */
  function DurationOf(es: seq<Event>): Option<int> {
    if es == [] then None
    else
      var last := es[|es| - 1];
      match LastTime(es[..|es| - 1], {Started})
      case Some(start) => Some(last.time - start)
      case None => if last.parsed.status == Started then Some(0) else None
  }

  lemma {:induction false} DurationRan(es: seq<Event>)
    ensures Ran(es).duration == DurationOf(es)
    ensures Ran(es).started.None? ==> Ran(es).duration.None?
  {
    if es != [] {
      var front, last := es[..|es| - 1], es[|es| - 1];
      assert es == front + [last];
      DurationRan(front);
      TimesRan(front);
      RanNext(front, last);
      assert es[..|es| - 1] == front;
    }
  }

  /** The duration over a run: it spans from the last start before the last message to that message. */
  lemma DurationOfARun(hs: seq<Heard>)
    ensures After(hs).duration == DurationOf(Events(hs))
  {
    RunTakesEvents(hs);
    DurationRan(Events(hs));
  }

  lemma DurationRanIff(es: seq<Event>, front: seq<Event>, last: Event)
    requires es == front + [last] && Ran(es).started.Some?
    ensures Ran(es).updated == Some(last.time)
    ensures Ran(es).duration == Some(last.time - Ran(es).started.value) <==>
            last.parsed.status != Started || LastTime(front, {Started}) in {None, Some(last.time)}
  {
    TimesRan(front);
    RanNext(front, last);
  }

  /** On a started job the duration is the time from start to last update exactly when the last message
      is no start, or the first one, or repeats the time of the start before it. */
  lemma DurationUpToDateIff(hs: seq<Heard>)
    requires After(hs).started.Some?
    ensures var job, es := After(hs), Events(hs);
            && es != [] && job.updated == Some(es[|es| - 1].time)
            && (job.duration == Some(job.updated.value - job.started.value) <==>
                StatusAt(es, |es| - 1) != Started ||
                LastTime(es[..|es| - 1], {Started}) in {None, Some(es[|es| - 1].time)})
  {
    RunTakesEvents(hs);
    var es := Events(hs);
    TimesRan(es);
    assert es == es[..|es| - 1] + [es[|es| - 1]];
    DurationRanIff(es, es[..|es| - 1], es[|es| - 1]);
  }

  // ----- Reading a status back -----

  /** An occurrence of `part` may begin at `i`, going by its first two characters. */
  predicate MayBegin(head: string, part: string, i: nat)
    requires i < |head| && part != ""
  {
    head[i] == part[0] && (i + 1 == |head| || |part| == 1 || head[i + 1] == part[1])
  }

  predicate NoneBegins(head: string, part: string) {
    part != "" && forall i :: 0 <= i < |head| ==> !MayBegin(head, part, i)
  }

  lemma NotHere(head: string, body: string, part: string)
    requires head != "" && NoneBegins(head, part)
    ensures !(part <= head + body) && NoneBegins(head[1..], part)
  {
    assert !MayBegin(head, part, 0);
    forall i | 0 <= i < |head[1..]| ensures !MayBegin(head[1..], part, i) {
      assert !MayBegin(head, part, i + 1);
    }
  }

  lemma {:induction false} HeadStays(head: string, body: string, part: string)
    requires NoneBegins(head, part)
    ensures Without(head + body, part) == head + Without(body, part)
  {
    if head == "" {
      assert head + body == body;
    } else {
      var s := head + body;
      NotHere(head, body, part);
      assert s[1..] == head[1..] + body && s[0] == head[0];
      FirstStays(s, part);
      HeadStays(head[1..], body, part);
      FirstAndRest(head, Without(body, part));
    }
  }

  lemma FirstAndRest(head: string, tail: string)
    requires head != ""
    ensures [head[0]] + (head[1..] + tail) == head + tail
  {
  }

  lemma FirstStays(s: string, part: string)
    requires part != "" && s != "" && !(part <= s)
    ensures Without(s, part) == [s[0]] + Without(s[1..], part)
  {
    if |s| < |part| {
      ShortStays(s[1..], part);
      assert s == [s[0]] + s[1..];
    }
  }

  lemma ShortStays(s: string, part: string)
    requires part != "" && |s| < |part|
    ensures Without(s, part) == s
  {
  }

  lemma PrefixGoes(part: string, body: string)
    requires part != ""
    ensures Without(part + body, part) == Without(body, part)
  {
    assert (part + body)[|part|..] == body;
    assert part <= part + body;
  }

  lemma SliceOfRest(s: string, i: nat, n: nat)
    requires i + 1 + n <= |s|
    ensures s[1..][i..i + n] == s[i + 1..i + 1 + n]
  {
    var rest, there := s[1..][i..i + n], s[i + 1..i + 1 + n];
    assert |rest| == |there| && forall k :: 0 <= k < n ==> rest[k] == there[k];
  }

  /** Past a position where `part` does not begin. */
  lemma ContainsPast(s: string, part: string)
    requires s != "" && !At(s, part, 0)
    ensures Contains(s, part) <==> Contains(s[1..], part)
  {
    forall i: nat ensures At(s[1..], part, i) <==> At(s, part, i + 1) {
      if i + 1 + |part| <= |s| {
        SliceOfRest(s, i, |part|);
      }
    }
    if Contains(s, part) {
      var i :| 0 <= i <= |s| - |part| && At(s, part, i);
      assert At(s[1..], part, i - 1);
    }
    if Contains(s[1..], part) {
      var i :| 0 <= i <= |s[1..]| - |part| && At(s[1..], part, i);
      assert At(s, part, i + 1);
    }
  }

  lemma WithoutUnfold(s: string, part: string)
    requires part != "" && |s| >= |part|
    ensures At(s, part, 0) ==> Without(s, part) == Without(s[|part|..], part) && Contains(s, part)
    ensures !At(s, part, 0) ==> Without(s, part) == [s[0]] + Without(s[1..], part)
  {
    assert s[0..|part|] == s[..|part|];
    assert At(s, part, 0) <==> part <= s;
  }

  /** Replacing leaves a text as it is exactly when there is nothing to replace. */
  lemma {:induction false} WithoutKeepsIff(s: string, part: string)
    requires part != ""
    ensures Without(s, part) == s <==> !Contains(s, part)
    ensures Contains(s, part) ==> |Without(s, part)| < |s|
  {
    if |s| >= |part| {
      WithoutUnfold(s, part);
      if !At(s, part, 0) {
        WithoutKeepsIff(s[1..], part);
        ContainsPast(s, part);
        assert s == [s[0]] + s[1..];
      }
    } else {
      ShortStays(s, part);
    }
  }

  lemma LongNeverBeginsInShort(s: Status)
    ensures NoneBegins(Short(s), Long(s))
  {
  }

  /** Either spelling in front of a body is taken off again; the body is returned unchanged exactly when
      it contains neither. */
  lemma SpellingIsTakenOff(s: Status, body: string)
    ensures Cleaned(Long(s) + body, s) == Cleaned(body, s) && Cleaned(Short(s) + body, s) == Cleaned(body, s)
    ensures Cleaned(body, s) == body <==> !Contains(body, Long(s)) && !Contains(body, Short(s))
  {
    PrefixGoes(Long(s), body);
    LongNeverBeginsInShort(s);
    HeadStays(Short(s), body, Long(s));
    PrefixGoes(Short(s), Without(body, Long(s)));
    WithoutKeepsIff(body, Long(s));
    WithoutKeepsIff(Without(body, Long(s)), Short(s));
  }

  /** A body that ends a message the way a start or an end is told apart without a spelling. */
  predicate Overrides(body: string, s: Status) {
    (s != Started && EndsWith(body, "Started processing.")) ||
    (s != Started && s != Succeeded && EndsWith(body, "Done processing."))
  }

  lemma EndIsInTheBody(head: string, body: string, tail: string)
    requires |head| > 1 && head[|head| - 2] == ':' && head[|head| - 1] == ' '
    requires tail != "" && tail[0] != ' ' && ':' !in tail
    ensures EndsWith(head + body, tail) <==> EndsWith(body, tail)
  {
    var s := head + body;
    if |body| >= |tail| {
      assert s[|s| - |tail|..] == body[|body| - |tail|..];
    } else if |s| >= |tail| {
      var end, k := s[|s| - |tail|..], |tail| - |body|;
      assert end[k - 1] == s[|head| - 1] == ' ';
      if k > 1 {
        assert end[k - 2] == s[|head| - 2] == ':';
        assert tail[k - 2] in tail;
      }
    }
  }

  function Spelling(s: Status, short: bool): string {
    if short then Short(s) else Long(s)
  }

  /** The status of a message is read back exactly when its body does not override it. */
  lemma StatusIsReadBackIff(s: Status, body: string, short: bool)
    requires s != Created
    ensures var p := ParseMessageStatus(Spelling(s, short) + body);
            && p.Some? && (Overrides(body, s) ==> p.value.status != s)
            && (!Overrides(body, s) ==> p == Some(Parsed(s, Cleaned(body, s))))
  {
    SpellingIsTakenOff(s, body);
    EndsAreTheBodys(s, body, short);
    OnlyItsOwn(s, body, short);
    BranchTaken(Spelling(s, short) + body, body, s);
  }

  predicate Means(msg: string, s: Status) {
    ParseMessageStatus(msg).Some? && ParseMessageStatus(msg).value.status == s
  }

  /** The twelve spellings, in front of a body with neither ending. */
  lemma SpellingsMean(body: string)
    requires !EndsWith(body, "Started processing.") && !EndsWith(body, "Done processing.")
    ensures Means("StatusMessage.start: " + body, Started) && Means("STARTED: " + body, Started)
    ensures Means("StatusMessage.processing: " + body, Processing) && Means("PROCESSING: " + body, Processing)
    ensures Means("StatusMessage.done: " + body, Succeeded) && Means("SUCCEEDED: " + body, Succeeded)
    ensures Means("StatusMessage.error: " + body, Errored) && Means("ERROR: " + body, Errored)
    ensures Means("StatusMessage.skip: " + body, Skipped) && Means("SKIPPED: " + body, Skipped)
    ensures Means("StatusMessage.retry: " + body, Resubmitted) && Means("RESUBMITTED: " + body, Resubmitted)
  {
    forall s, short | s != Created ensures Means(Spelling(s, short) + body, s) {
      StatusIsReadBackIff(s, body, short);
    }
    hide Means, Overrides;
    SpellingsAre();
    forall s | s != Created ensures Means(Long(s) + body, s) && Means(Short(s) + body, s) {
      assert Spelling(s, false) == Long(s) && Spelling(s, true) == Short(s);
    }
  }

  lemma EndIsAt(msg: string, tail: string, i: nat)
    requires EndsWith(msg, tail) && i < |tail|
    ensures msg[|msg| - |tail| + i] == tail[i]
  {
  }

  /** A message that ends with "Started processing." is a start; one that ends with "Done processing." is a start if
      it is spelled as one and an end otherwise. */
  lemma EndingsMean(msg: string)
    ensures EndsWith(msg, "Started processing.") ==> Means(msg, Started)
    ensures EndsWith(msg, "Done processing.") ==>
              Means(msg, if "StatusMessage.start: " <= msg || "STARTED: " <= msg then Started else Succeeded)
  {
    SpellingsAre();
    if EndsWith(msg, "Started processing.") {
      EndIsAt(msg, "Started processing.", 3);
    }
    if EndsWith(msg, "Done processing.") {
      EndIsAt(msg, "Done processing.", 0);
    }
    hide Cleaned;
  }

  lemma SpellingsAre()
    ensures Long(Started) == "StatusMessage.start: " && Short(Started) == "STARTED: "
    ensures Long(Processing) == "StatusMessage.processing: " && Short(Processing) == "PROCESSING: "
    ensures Long(Succeeded) == "StatusMessage.done: " && Short(Succeeded) == "SUCCEEDED: "
    ensures Long(Errored) == "StatusMessage.error: " && Short(Errored) == "ERROR: "
    ensures Long(Skipped) == "StatusMessage.skip: " && Short(Skipped) == "SKIPPED: "
    ensures Long(Resubmitted) == "StatusMessage.retry: " && Short(Resubmitted) == "RESUBMITTED: "
  {
  }

  lemma EndsAreTheBodys(s: Status, body: string, short: bool)
    ensures EndsWith(Spelling(s, short) + body, "Started processing.") <==> EndsWith(body, "Started processing.")
    ensures EndsWith(Spelling(s, short) + body, "Done processing.") <==> EndsWith(body, "Done processing.")
  {
    SpellingsEnd(s, short);
    EndIsInTheBody(Spelling(s, short), body, "Started processing.");
    EndIsInTheBody(Spelling(s, short), body, "Done processing.");
  }

  lemma OnlyItsOwn(s: Status, body: string, short: bool)
    requires s != Created
    ensures forall u :: u != Created ==> (Announces(Spelling(s, short) + body, u) <==> u == s)
  {
    forall u | u != Created ensures Announces(Spelling(s, short) + body, u) <==> u == s {
      AnnouncesIff(s, u, body, short);
    }
  }

  lemma BranchTaken(msg: string, body: string, s: Status)
    requires s != Created && (forall u :: u != Created ==> (Announces(msg, u) <==> u == s))
    requires EndsWith(msg, "Started processing.") <==> EndsWith(body, "Started processing.")
    requires EndsWith(msg, "Done processing.") <==> EndsWith(body, "Done processing.")
    ensures StatusOf(msg).Some? && (StatusOf(msg) == Some(s) <==> !Overrides(body, s))
  {
  }

  lemma SpellingsEnd(s: Status, short: bool)
    ensures var head := Spelling(s, short); |head| > 1 && head[|head| - 2] == ':' && head[|head| - 1] == ' '
  {
  }

  lemma AnnouncesIff(s: Status, u: Status, body: string, short: bool)
    requires s != Created && u != Created
    ensures Announces(Spelling(s, short) + body, u) <==> u == s
  {
    var head := Spelling(s, short);
    SpellingsDiffer(s, u);
    if s != u {
      NoPrefix(Long(u), head, body, if short then 1 else if Long(s)[14] != Long(u)[14] then 14 else 15);
      NoPrefix(Short(u), head, body, if short && Short(s)[0] != Short(u)[0] then 0 else 1);
    }
  }

  lemma NoPrefix(part: string, head: string, body: string, i: nat)
    requires i < |part| && i < |head| && part[i] != head[i]
    ensures !(part <= head + body)
  {
    assert (head + body)[i] == head[i];
  }

  lemma SpellingsDiffer(s: Status, u: Status)
    requires s != Created && u != Created
    ensures |Long(s)| > 15 && |Short(s)| > 6 && |Long(u)| > 15 && |Short(u)| > 6
    ensures Long(s)[1] == Long(u)[1] == 't' && Short(s)[1] != 't' && Short(u)[1] != 't'
    ensures s != u ==> Long(s)[14] != Long(u)[14] || Long(s)[15] != Long(u)[15]
    ensures s != u ==> Short(s)[0] != Short(u)[0] || Short(s)[1] != Short(u)[1]
  {
  }

  // ----- What goes wrong -----

  /** A message is an exception, whatever the job, exactly when it begins with no spelling and has neither
      ending; and exactly then it saves nothing. */
  lemma UnrecognisedIff(msg: string)
    ensures ParseMessageStatus(msg) == None <==>
            (forall s :: s != Created ==> !Announces(msg, s)) &&
            !EndsWith(msg, "Started processing.") && !EndsWith(msg, "Done processing.")
    ensures ParseMessageStatus(msg) == None <==> forall job, time :: Received(job, Hear(Message(msg, time))) == job
  {
    hide Announces, EndsWith, Cleaned;
    if ParseMessageStatus(msg).Some? {
      assert Received(NEW_JOB, Hear(Message(msg, 0))).updated == Some(0);
    }
  }

  lemma UnrecognisedMessage()
    ensures ParseMessageStatus("hello") == None
  {
    forall u | u != Created ensures !Announces("hello", u) {
      SpellingsDiffer(u, u);
      hide Long, Short;
    }
    UnrecognisedIff("hello");
  }

  /** A job started twice, at 0 and at 5: the duration says 5, the record says no time has passed. */
  lemma SecondStartLeavesTheDuration()
    ensures var job := After([Hear(Message("STARTED: x", 0)), Hear(Message("STARTED: x", 5))]);
            job.started == Some(5) && job.updated == Some(5) && job.duration == Some(5)
  {
    StatusIsReadBackIff(Started, "x", true);
    assert Short(Started) + "x" == "STARTED: x";
    var first, second := Hear(Message("STARTED: x", 0)), Hear(Message("STARTED: x", 5));
    assert [first, second][..1] == [first] && [first][..0] == [];
    assert After([first]) == Received(NEW_JOB, first);
  }
}
