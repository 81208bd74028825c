/** The autonomous publishing flow of `video_entry` (cinegram/handlers/video_handler.py):
    file name -> title and year -> catalog record -> completeness gate -> poster ->
    photo and video posts to the channel, each retried while the channel asks to wait.
    Everything the handler does to the outside world is recorded, in order, in an event log;
    the services it calls are oracles in `Env`, and the channel's answers to successive send
    attempts are a finite sequence the handler consumes. */
module VideoHandler {
  import opened Common
  import opened PyStrings
  import FilenameParser
  import TmdbService

  /** `message.video or message.document`: absent, or the attachment's file id and name. */
  datatype Media = NoMedia | Media(fileId: string, fileName: Option<string>)

  /** What `ImageGenerator.generate_poster` did: raised, or returned the image path. */
  datatype Poster = RenderRaised | Rendered(path: string)

  /** The services the handler calls: the filename guesser, the catalog (key, search endpoint,
      translation), the poster renderer and `os.path.exists`. */
  datatype Env = Env(
    guessit: string -> FilenameParser.Guess,
    apiKey: string,
    catalog: TmdbService.Request -> TmdbService.Reply,
    translate: string -> string,
    render: (string, Option<string>, Option<string>) -> Poster,
    onDisk: string -> bool)

  /** The channel's answer to one send: accepted, `RetryAfter(seconds)`, or any other error. */
  datatype SendOutcome = Sent | RetryAfter(seconds: nat) | Failed(error: string)

  /** The replies to the user, with the values their texts interpolate. */
  datatype Notice =
    | Processing
    | CannotParse
    | Analyzing(title: string, year: string)
    | NothingFound(title: string)
    | MissingPosterOrYear(title: string)
    | GeneratingPoster
    | PosterError
    | WaitNotice(seconds: nat)
    | PublishedNotice(title: string, year: string)
    | ChannelError(error: string)

  /** What is posted to the channel: the generated image, or the video with its caption. */
  datatype Upload = Photo(path: string) | Video(fileId: string, caption: string)

  /** One observable step of the handler. */
  datatype Event =
    | Reply(notice: Notice)
    | Lookup(title: string, year: Option<string>, search: TmdbService.Search)
    | Sleep(seconds: nat)
    | Send(upload: Upload, answer: SendOutcome)

  /** How the handler ended. `Crashed` is an exception that escapes it (a record whose
      `release_date`, `vote_average` or `genre_ids` is null); `Stalled` means the channel's
      answers ran out while it was still asking to wait. */
  datatype Outcome =
    | Ignored | ParseFailed | NotFound | Crashed | Incomplete | RenderFailed
    | Published | PublishFailed(error: string) | Stalled

  const DefaultFileName: string := "Unknown_Movie.mp4"
  const NoneNotSubscriptable: string := "'NoneType' object is not subscriptable"

  /** An optional text as an f-string shows it. */
  function Shown(s: Option<string>): string {
    if s.Some? then s.value else "None"
  }

  // ---- Views of the event log ----

  /** The channel's answers, in the order the sends were attempted. */
  function Answers(events: seq<Event>): seq<SendOutcome> {
    if events == [] then []
    else (if events[0].Send? then [events[0].answer] else []) + Answers(events[1..])
  }

  /** The catalog searches, in order. */
  function Lookups(events: seq<Event>): seq<Event> {
    if events == [] then []
    else (if events[0].Lookup? then [events[0]] else []) + Lookups(events[1..])
  }

  /** The replies to the user, in order. */
  function Replies(events: seq<Event>): seq<Notice> {
    if events == [] then []
    else (if events[0].Reply? then [events[0].notice] else []) + Replies(events[1..])
  }

  /** The total time slept, in seconds. */
  function Slept(events: seq<Event>): nat {
    if events == [] then 0
    else (if events[0].Sleep? then events[0].seconds else 0) + Slept(events[1..])
  }

  /** Every view of a log is the view of its first part followed by that of the rest. */
  lemma ViewsAppend(a: seq<Event>, b: seq<Event>)
    ensures Answers(a + b) == Answers(a) + Answers(b)
    ensures Lookups(a + b) == Lookups(a) + Lookups(b)
    ensures Replies(a + b) == Replies(a) + Replies(b)
    ensures Slept(a + b) == Slept(a) + Slept(b)
  {
    AnswersAppend(a, b);
    LookupsAppend(a, b);
    RepliesAppend(a, b);
    SleptAppend(a, b);
  }

  lemma {:induction false} AnswersAppend(a: seq<Event>, b: seq<Event>)
    ensures Answers(a + b) == Answers(a) + Answers(b)
  {
    if a == [] {
      assert a + b == b;
    } else {
      var h := if a[0].Send? then [a[0].answer] else [];
      var ab := a + b;
      assert ab[0] == a[0] && ab[1..] == a[1..] + b;
      assert Answers(ab) == h + Answers(a[1..] + b);
      assert Answers(a) == h + Answers(a[1..]);
      AnswersAppend(a[1..], b);
      calc {
        Answers(ab);
        h + (Answers(a[1..]) + Answers(b));
        (h + Answers(a[1..])) + Answers(b);
      }
    }
  }

  lemma {:induction false} LookupsAppend(a: seq<Event>, b: seq<Event>)
    ensures Lookups(a + b) == Lookups(a) + Lookups(b)
  {
    if a == [] {
      assert a + b == b;
    } else {
      var h := if a[0].Lookup? then [a[0]] else [];
      var ab := a + b;
      assert ab[0] == a[0] && ab[1..] == a[1..] + b;
      assert Lookups(ab) == h + Lookups(a[1..] + b);
      assert Lookups(a) == h + Lookups(a[1..]);
      LookupsAppend(a[1..], b);
      calc {
        Lookups(ab);
        h + (Lookups(a[1..]) + Lookups(b));
        (h + Lookups(a[1..])) + Lookups(b);
      }
    }
  }

  lemma {:induction false} RepliesAppend(a: seq<Event>, b: seq<Event>)
    ensures Replies(a + b) == Replies(a) + Replies(b)
  {
    if a == [] {
      assert a + b == b;
    } else {
      var h := if a[0].Reply? then [a[0].notice] else [];
      var ab := a + b;
      assert ab[0] == a[0] && ab[1..] == a[1..] + b;
      assert Replies(ab) == h + Replies(a[1..] + b);
      assert Replies(a) == h + Replies(a[1..]);
      RepliesAppend(a[1..], b);
      calc {
        Replies(ab);
        h + (Replies(a[1..]) + Replies(b));
        (h + Replies(a[1..])) + Replies(b);
      }
    }
  }

  lemma {:induction false} SleptAppend(a: seq<Event>, b: seq<Event>)
    ensures Slept(a + b) == Slept(a) + Slept(b)
  {
    if a == [] {
      assert a + b == b;
    } else {
      assert (a + b)[1..] == a[1..] + b;
      SleptAppend(a[1..], b);
    }
  }

  /** The log consumed exactly the first `used` answers, in order, and slept exactly the
      waits they asked for. */
  predicate Consumed(events: seq<Event>, answers: seq<SendOutcome>, used: nat) {
    used <= |answers| && Answers(events) == answers[..used] && Slept(events) == RetrySum(answers[..used])
  }

  /** No reply in the log is the success message. */
  predicate Unannounced(events: seq<Event>) {
    forall k :: 0 <= k < |Replies(events)| ==> !Replies(events)[k].PublishedNotice?
  }

  /** The success message is sent only as the last reply, and is sent exactly when `published`. */
  predicate AnnouncedLast(events: seq<Event>, published: bool) {
    var rs := Replies(events);
    (forall k :: 0 <= k < |rs| - 1 ==> !rs[k].PublishedNotice?)
    && (published <==> rs != [] && rs[|rs| - 1].PublishedNotice?)
  }

  /** The log ends with `tail`. */
  predicate EndsWith(events: seq<Event>, tail: seq<Event>) {
    |tail| <= |events| && events[|events| - |tail|..] == tail
  }

  lemma RetrySumPrefixes(answers: seq<SendOutcome>, i: nat, j: nat)
    requires i <= |answers| && j <= |answers| - i
    ensures answers[..i] + answers[i..][..j] == answers[..i + j]
    ensures RetrySum(answers[..i + j]) == RetrySum(answers[..i]) + RetrySum(answers[i..][..j])
  {
    assert answers[..i] + answers[i..][..j] == answers[..i + j];
    RetrySumAppend(answers[..i], answers[i..][..j]);
  }

  lemma ConsumedAppend(a: seq<Event>, b: seq<Event>, answers: seq<SendOutcome>, i: nat, j: nat)
    requires Consumed(a, answers, i) && Consumed(b, answers[i..], j)
    ensures Consumed(a + b, answers, i + j)
  {
    ViewsAppend(a, b);
    RetrySumPrefixes(answers, i, j);
  }

  lemma AnnouncedAfter(a: seq<Event>, b: seq<Event>, published: bool)
    requires Unannounced(a) && AnnouncedLast(b, published)
    ensures AnnouncedLast(a + b, published)
  {
    ViewsAppend(a, b);
    var ra, rb := Replies(a), Replies(b);
    assert Replies(a + b) == ra + rb;
    if rb == [] {
      assert ra + rb == ra;
    }
  }

  /** A log that consumed answers but searched and replied nothing, followed by one that
      consumed the next answers: together they consumed both runs, and the second decides
      what was announced. */
  lemma AfterSilentPrefix(a: seq<Event>, b: seq<Event>, answers: seq<SendOutcome>, i: nat, j: nat, published: bool)
    requires Consumed(a, answers, i) && Lookups(a) == [] && Replies(a) == []
    requires Consumed(b, answers[i..], j) && Lookups(b) == [] && AnnouncedLast(b, published)
    ensures Consumed(a + b, answers, i + j) && Lookups(a + b) == [] && AnnouncedLast(a + b, published)
  {
    ConsumedAppend(a, b, answers, i, j);
    LookupsAppend(a, b);
    RepliesAppend(a, b);
    SameReplies(a + b, b, published);
  }

  lemma SameReplies(x: seq<Event>, y: seq<Event>, published: bool)
    requires Replies(x) == Replies(y) && AnnouncedLast(y, published)
    ensures AnnouncedLast(x, published)
  {
  }

  lemma EndsWithAppend(a: seq<Event>, b: seq<Event>, tail: seq<Event>)
    requires EndsWith(b, tail)
    ensures EndsWith(a + b, tail)
  {
    assert (a + b)[|a + b| - |tail|..] == b[|b| - |tail|..];
  }

  lemma EndsWithAfter(a: seq<Event>, b: seq<Event>, tail: seq<Event>)
    ensures EndsWith(b, tail) ==> EndsWith(a + b, tail)
  {
    if EndsWith(b, tail) {
      EndsWithAppend(a, b, tail);
    }
  }

  // ---- The RetryAfter loops ----

  /** The number of leading answers that ask to wait. */
  function RetryRun(answers: seq<SendOutcome>): (n: nat)
    ensures n <= |answers|
    ensures forall k :: 0 <= k < n ==> answers[k].RetryAfter?
    ensures n < |answers| ==> !answers[n].RetryAfter?
  {
    if answers != [] && answers[0].RetryAfter? then 1 + RetryRun(answers[1..]) else 0
  }

  /** The seconds the answers ask to wait, added up. */
  function RetrySum(answers: seq<SendOutcome>): nat {
    if answers == [] then 0
    else (if answers[0].RetryAfter? then answers[0].seconds else 0) + RetrySum(answers[1..])
  }

  /** The answer a send loop stops at: the first one that does not ask to wait; none when every
      answer asks to wait. */
  function Settling(answers: seq<SendOutcome>): (settled: Option<SendOutcome>)
    ensures settled.Some? ==> !settled.value.RetryAfter?
  {
    if answers == [] then None
    else if answers[0].RetryAfter? then Settling(answers[1..])
    else Some(answers[0])
  }

  /** How many answers a send loop takes: every wait up to the settling answer and that answer,
      or all of them when none settles. */
  function Spent(answers: seq<SendOutcome>): (used: nat)
    ensures used <= |answers|
    ensures answers != [] ==> used > 0
  {
    if answers == [] then 0
    else if answers[0].RetryAfter? then 1 + Spent(answers[1..])
    else 1
  }

  /** The settling answer is the one right after the leading waits, and the loop takes the
      waits and that answer. */
  lemma {:induction false} SettlingByRun(answers: seq<SendOutcome>)
    ensures var n := RetryRun(answers);
      Settling(answers) == (if n < |answers| then Some(answers[n]) else None)
      && Spent(answers) == (if n < |answers| then n + 1 else |answers|)
  {
    if answers != [] && answers[0].RetryAfter? {
      var rest := answers[1..];
      SettlingByRun(rest);
      assert RetryRun(answers) == 1 + RetryRun(rest);
      if RetryRun(rest) < |rest| {
        assert rest[RetryRun(rest)] == answers[RetryRun(answers)];
      }
    }
  }

  /** One wait notice per answer that asks to wait. */
  function WaitNotices(answers: seq<SendOutcome>): (ns: seq<Notice>)
    ensures |ns| <= |answers|
    ensures forall k :: 0 <= k < |ns| ==> ns[k].WaitNotice?
  {
    if answers == [] then []
    else (if answers[0].RetryAfter? then [WaitNotice(answers[0].seconds)] else []) + WaitNotices(answers[1..])
  }

  /** One pass of a retry loop: the send, then, when asked to wait, the wait notice (video
      only) and the sleep. */
  function Attempt(upload: Upload, answer: SendOutcome): seq<Event> {
    [Send(upload, answer)]
    + match answer
      case RetryAfter(n) => (if upload.Video? then [Reply(WaitNotice(n))] else []) + [Sleep(n)]
      case _ => []
  }

  /** The log of a retry loop that received `answers`. */
  function RetryLog(upload: Upload, answers: seq<SendOutcome>): seq<Event> {
    if answers == [] then [] else Attempt(upload, answers[0]) + RetryLog(upload, answers[1..])
  }

  lemma {:induction false} RetryLogSnoc(upload: Upload, answers: seq<SendOutcome>, answer: SendOutcome)
    ensures RetryLog(upload, answers + [answer]) == RetryLog(upload, answers) + Attempt(upload, answer)
  {
    if answers != [] {
      assert (answers + [answer])[1..] == answers[1..] + [answer];
      RetryLogSnoc(upload, answers[1..], answer);
    }
  }

  /** A retry loop sends once per answer, sleeps exactly the seconds it is asked to wait,
      searches nothing, and tells the user only about waits, and only while posting the video. */
  lemma RetryLogViews(upload: Upload, answers: seq<SendOutcome>)
    ensures Answers(RetryLog(upload, answers)) == answers
    ensures Slept(RetryLog(upload, answers)) == RetrySum(answers)
    ensures Lookups(RetryLog(upload, answers)) == []
    ensures Replies(RetryLog(upload, answers)) == if upload.Video? then WaitNotices(answers) else []
  {
    RetryLogAnswers(upload, answers);
    RetryLogSlept(upload, answers);
    RetryLogLookups(upload, answers);
    RetryLogReplies(upload, answers);
  }

  /** The views of a one-event log. */
  lemma OneEvent(e: Event)
    ensures Answers([e]) == if e.Send? then [e.answer] else []
    ensures Slept([e]) == if e.Sleep? then e.seconds else 0
    ensures Lookups([e]) == if e.Lookup? then [e] else []
    ensures Replies([e]) == if e.Reply? then [e.notice] else []
  {
    assert [e][1..] == [];
  }

  /** The views of one pass of a retry loop. */
  lemma AttemptViews(upload: Upload, answer: SendOutcome)
    ensures Answers(Attempt(upload, answer)) == [answer]
    ensures Slept(Attempt(upload, answer)) == if answer.RetryAfter? then answer.seconds else 0
    ensures Lookups(Attempt(upload, answer)) == []
    ensures Replies(Attempt(upload, answer)) == if upload.Video? && answer.RetryAfter? then [WaitNotice(answer.seconds)] else []
  {
    var send := [Send(upload, answer)];
    OneEvent(send[0]);
    if answer.RetryAfter? {
      var n := answer.seconds;
      var sleep := [Sleep(n)];
      OneEvent(sleep[0]);
      if upload.Video? {
        var notice := [Reply(WaitNotice(n))];
        OneEvent(notice[0]);
        ViewsAppend(notice, sleep);
        ViewsAppend(send, notice + sleep);
        assert Attempt(upload, answer) == send + (notice + sleep);
      } else {
        ViewsAppend(send, sleep);
        assert Attempt(upload, answer) == send + sleep;
      }
    } else {
      assert Attempt(upload, answer) == send;
    }
  }

  lemma {:induction false} RetryLogAnswers(upload: Upload, answers: seq<SendOutcome>)
    ensures Answers(RetryLog(upload, answers)) == answers
  {
    if answers != [] {
      AnswersAppend(Attempt(upload, answers[0]), RetryLog(upload, answers[1..]));
      AttemptViews(upload, answers[0]);
      RetryLogAnswers(upload, answers[1..]);
    }
  }

  lemma {:induction false} RetryLogSlept(upload: Upload, answers: seq<SendOutcome>)
    ensures Slept(RetryLog(upload, answers)) == RetrySum(answers)
  {
    if answers != [] {
      SleptAppend(Attempt(upload, answers[0]), RetryLog(upload, answers[1..]));
      AttemptViews(upload, answers[0]);
      RetryLogSlept(upload, answers[1..]);
    }
  }

  lemma {:induction false} RetryLogLookups(upload: Upload, answers: seq<SendOutcome>)
    ensures Lookups(RetryLog(upload, answers)) == []
  {
    if answers != [] {
      LookupsAppend(Attempt(upload, answers[0]), RetryLog(upload, answers[1..]));
      AttemptViews(upload, answers[0]);
      RetryLogLookups(upload, answers[1..]);
    }
  }

  lemma {:induction false} RetryLogReplies(upload: Upload, answers: seq<SendOutcome>)
    ensures Replies(RetryLog(upload, answers)) == if upload.Video? then WaitNotices(answers) else []
  {
    if answers != [] {
      RepliesAppend(Attempt(upload, answers[0]), RetryLog(upload, answers[1..]));
      AttemptViews(upload, answers[0]);
      RetryLogReplies(upload, answers[1..]);
    }
  }

  /** A retry loop's log, cut after any number of answers, consumed exactly those answers,
      searched nothing and never announced success. */
  lemma RetryLogConsumed(upload: Upload, answers: seq<SendOutcome>, used: nat)
    requires used <= |answers|
    ensures var events := RetryLog(upload, answers[..used]);
      Consumed(events, answers, used) && Lookups(events) == [] && Unannounced(events)
  {
    RetryLogViews(upload, answers[..used]);
  }

  /** A log that never announced success has not announced it last either. */
  lemma UnannouncedIsAnnouncedLast(events: seq<Event>)
    requires Unannounced(events)
    ensures AnnouncedLast(events, false)
  {
    var rs := Replies(events);
    if rs != [] {
      assert !rs[|rs| - 1].PublishedNotice?;
    }
  }

  /** Closing a log with one more reply: nothing else is consumed or searched, that reply is the
      last one, and it follows the log's last event. */
  lemma CloseWith(events: seq<Event>, answers: seq<SendOutcome>, used: nat, n: Notice)
    requires Consumed(events, answers, used) && Lookups(events) == [] && Unannounced(events)
    ensures var closed := events + [Reply(n)];
      Consumed(closed, answers, used) && Lookups(closed) == []
      && AnnouncedLast(closed, n.PublishedNotice?)
      && EndsWith(closed, [Reply(n)])
      && (events != [] ==> EndsWith(closed, [events[|events| - 1], Reply(n)]))
  {
    ClosedViews(events, n);
    AnnouncedOnClose(events, n);
    EndsWithLast(events, Reply(n));
  }

  lemma EndsWithLast(events: seq<Event>, e: Event)
    ensures EndsWith(events + [e], [e])
    ensures events != [] ==> EndsWith(events + [e], [events[|events| - 1], e])
  {
    var closed := events + [e];
    assert closed[|closed| - 1..] == [e];
    if events != [] {
      assert closed[|closed| - 2..] == [events[|events| - 1], e];
    }
  }

  lemma ClosedViews(events: seq<Event>, n: Notice)
    ensures var closed := events + [Reply(n)];
      Answers(closed) == Answers(events) && Slept(closed) == Slept(events)
      && Lookups(closed) == Lookups(events) && Replies(closed) == Replies(events) + [n]
  {
    OneEvent(Reply(n));
    ViewsAppend(events, [Reply(n)]);
  }

  lemma AnnouncedOnClose(events: seq<Event>, n: Notice)
    requires Unannounced(events) && Replies(events + [Reply(n)]) == Replies(events) + [n]
    ensures AnnouncedLast(events + [Reply(n)], n.PublishedNotice?)
  {
    var rs := Replies(events + [Reply(n)]);
    assert rs[|rs| - 1] == n;
    forall k | 0 <= k < |rs| - 1 ensures !rs[k].PublishedNotice? {
      assert rs[k] == Replies(events)[k];
    }
  }

  /** The `while True` send loop: retried while the channel answers `RetryAfter`, sleeping the
      time asked (and, for the video, telling the user first); it stops at the first other
      answer, which it returns as `settled`. When the answers run out first, `settled` is
      `None`. */
  method SendWithRetry(upload: Upload, answers: seq<SendOutcome>)
      returns (used: nat, events: seq<Event>, settled: Option<SendOutcome>)
    ensures used == if RetryRun(answers) < |answers| then RetryRun(answers) + 1 else |answers|
    ensures events == RetryLog(upload, answers[..used])
    ensures settled.None? <==> RetryRun(answers) == |answers|
    ensures settled.Some? ==>
      settled.value == answers[used - 1] && !settled.value.RetryAfter?
      && events != [] && events[|events| - 1] == Send(upload, settled.value)
    ensures settled == Settling(answers) && used == Spent(answers)
  {
    SettlingByRun(answers);
    used, events, settled := 0, [], None;
    while used < |answers|
      invariant used <= RetryRun(answers)
      invariant events == RetryLog(upload, answers[..used])
    {
      var answer := answers[used];
      RetryLogSnoc(upload, answers[..used], answer);
      assert answers[..used + 1] == answers[..used] + [answer];
      events := events + [Send(upload, answer)];
      used := used + 1;
      match answer {
        case RetryAfter(n) =>
          if upload.Video? {
            events := events + [Reply(WaitNotice(n))];
          }
          events := events + [Sleep(n)];
        case _ =>
          settled := Some(answer);
          break;
      }
    }
  }

  /** When the channel finally accepts or refuses, the time slept is the sum of the waits it
      asked for before that answer. */
  lemma SleepBeforeSettling(upload: Upload, answers: seq<SendOutcome>)
    requires RetryRun(answers) < |answers|
    ensures var n := RetryRun(answers);
      Slept(RetryLog(upload, answers[..n + 1])) == RetrySum(answers[..n])
  {
    var n := RetryRun(answers);
    var settling := [answers[n]];
    assert answers[..n + 1] == answers[..n] + settling;
    RetryLogSlept(upload, answers[..n + 1]);
    RetrySumAppend(answers[..n], settling);
    assert settling[1..] == [];
    assert RetrySum(settling) == 0;
  }

  lemma {:induction false} RetrySumAppend(a: seq<SendOutcome>, b: seq<SendOutcome>)
    ensures RetrySum(a + b) == RetrySum(a) + RetrySum(b)
  {
    if a == [] {
      assert a + b == b;
    } else {
      assert (a + b)[1..] == a[1..] + b;
      RetrySumAppend(a[1..], b);
    }
  }

  // ---- Hashtags ----

  /** Each word capitalized. */
  function Capitalized(words: seq<string>): (r: seq<string>)
    ensures |r| == |words| && forall k :: 0 <= k < |r| ==> r[k] == Capitalize(words[k])
  {
    seq(|words|, k requires 0 <= k < |words| => Capitalize(words[k]))
  }

  /** `"".join(word.capitalize() for word in entry.split())`: the entry's words, each with its
      first letter upper-cased, run together. The tag has no whitespace, is as long as the
      entry's words put together, is empty only for an entry without words, and starts with
      the first word's first letter upper-cased. */
  function CamelCase(entry: string): (tag: string)
    ensures !HasSpace(tag)
    ensures |tag| == |Join("", Words(entry))|
    ensures tag == [] <==> Words(entry) == []
    ensures Words(entry) != [] ==> tag[0] == UpperChar(Words(entry)[0][0])
  {
    var words := Words(entry);
    var capitalized := Capitalized(words);
    forall k | 0 <= k < |capitalized| ensures !HasSpace(capitalized[k]) {
      CapitalizeKeepsSpaces(words[k]);
    }
    JoinNoSpace("", capitalized);
    JoinSameLengths("", capitalized, words);
    JoinEmpty("", words);
    Join("", capitalized)
  }

  /** An entry written as words separated by single spaces gives exactly those words,
      capitalized and run together. */
  lemma CamelCaseOfWords(words: seq<string>)
    requires forall k :: 0 <= k < |words| ==> words[k] != [] && !HasSpace(words[k])
    ensures CamelCase(Join(" ", words)) == Join("", Capitalized(words))
  {
    WordsOfJoin(words);
  }

  /** The example in the source: "Ciencia ficción" becomes "CienciaFicción". */
  lemma CamelCaseExample()
    ensures CamelCase("Ciencia ficción") == "CienciaFicción"
  {
    ExampleWords();
    CamelCaseOfWords(["Ciencia", "ficción"]);
    ExampleCapitalized();
  }

  lemma ExampleWords()
    ensures !HasSpace("Ciencia") && !HasSpace("ficción")
    ensures Join(" ", ["Ciencia", "ficción"]) == "Ciencia ficción"
  {
    var words := ["Ciencia", "ficción"];
    assert words[1..] == ["ficción"];
  }

  lemma ExampleCapitalized()
    ensures Join("", Capitalized(["Ciencia", "ficción"])) == "CienciaFicción"
  {
    var capitalized := Capitalized(["Ciencia", "ficción"]);
    CapitalizeCiencia();
    CapitalizeFiccion();
    assert capitalized == ["Ciencia", "Ficción"];
    assert capitalized[1..] == ["Ficción"];
  }

  lemma CapitalizeCiencia()
    ensures Capitalize("Ciencia") == "Ciencia"
  {
    LowerKeeps("iencia");
    assert "Ciencia"[1..] == "iencia";
  }

  lemma CapitalizeFiccion()
    ensures Capitalize("ficción") == "Ficción"
  {
    LowerKeeps("icción");
    assert "ficción"[1..] == "icción";
    assert "Ficción" == ['F'] + "icción";
  }

  /** A text with no upper-case letter is its own lower case. */
  lemma LowerKeeps(tail: string)
    requires forall i :: 0 <= i < |tail| ==> LowerChar(tail[i]) == tail[i]
    ensures Lower(tail) == tail
  {
  }

  /** The hashtags of a genre text: one per comma-separated entry, at most three, each `#`
      followed by the entry's words capitalized and run together; none for an empty text. */
  function Hashtags(genre: string): (tags: seq<string>)
    ensures |tags| <= 3
    ensures tags == [] <==> genre == []
    ensures forall k :: 0 <= k < |tags| ==> tags[k] != [] && tags[k][0] == '#' && !HasSpace(tags[k])
  {
    if genre == [] then []
    else
      var entries := Split(genre, ',');
      var firstThree := if |entries| <= 3 then entries else entries[..3];
      var tags := seq(|firstThree|, k requires 0 <= k < |firstThree| => "#" + CamelCase(Strip(firstThree[k])));
      assert forall k :: 0 <= k < |tags| ==> !HasSpace(tags[k]) by {
        forall k | 0 <= k < |tags| ensures !HasSpace(tags[k]) {
          assert !HasSpace("#") by { assert !IsSpace("#"[0]); }
          NoSpaceConcat("#", CamelCase(Strip(firstThree[k])));
        }
      }
      tags
  }

  /** The hashtag-building loop of `video_entry`: strip every comma-separated entry of a
      non-empty genre text, keep the first three, and append one hashtag for each. */
  method HashtagList(genre: string) returns (tags: seq<string>)
    ensures tags == Hashtags(genre)
  {
    tags := [];
    if genre != [] {
      var parts := Split(genre, ',');
      var entries := seq(|parts|, k requires 0 <= k < |parts| => Strip(parts[k]));
      var firstThree := if |entries| <= 3 then entries else entries[..3];
      for i := 0 to |firstThree|
        invariant |tags| == i
        invariant forall k :: 0 <= k < i ==> tags[k] == "#" + CamelCase(firstThree[k])
      {
        tags := tags + ["#" + CamelCase(firstThree[i])];
      }
    }
  }

  /** The hashtag line, `" ".join(hashtag_list)`, splits back into the hashtags. */
  lemma HashtagLineWords(genre: string)
    ensures Words(Join(" ", Hashtags(genre))) == Hashtags(genre)
  {
    WordsOfJoin(Hashtags(genre));
  }

  /** For the genre text of a catalog record, there is one hashtag per genre name, for the
      first two ids. */
  lemma HashtagsOfGenres(ids: seq<int>)
    ensures var tags := Hashtags(TmdbService.GetGenres(ids));
      |tags| == (if |ids| < 2 then |ids| else 2)
      && forall k :: 0 <= k < |tags| ==> tags[k] == "#" + CamelCase(TmdbService.GenreName(ids[k]))
  {
    var genre := TmdbService.GetGenres(ids);
    TmdbService.GenresEmpty(ids);
    if ids != [] {
      GenreEntries(ids);
      var entries := Split(genre, ',');
      assert |entries| <= 3;
      assert forall k :: 0 <= k < |entries| ==> Strip(entries[k]) == TmdbService.GenreName(ids[k]);
    }
  }

  /** The comma-separated entries of a non-empty genre text are the genre names, up to the
      whitespace around them. */
  lemma GenreEntries(ids: seq<int>)
    requires ids != []
    ensures var entries := Split(TmdbService.GetGenres(ids), ',');
      |entries| == (if |ids| < 2 then |ids| else 2)
      && forall k :: 0 <= k < |entries| ==> Strip(entries[k]) == TmdbService.GenreName(ids[k])
  {
    var entries := Split(TmdbService.GetGenres(ids), ',');
    if |ids| == 1 {
      GenreEntryOfOne(ids);
    } else {
      GenreEntriesOfTwo(ids);
      assert Strip(entries[0]) == TmdbService.GenreName(ids[0]);
      assert Strip(entries[1]) == TmdbService.GenreName(ids[1]);
    }
  }

  lemma GenreEntryOfOne(ids: seq<int>)
    requires |ids| == 1
    ensures Split(TmdbService.GetGenres(ids), ',') == [TmdbService.GenreName(ids[0])]
    ensures Strip(TmdbService.GenreName(ids[0])) == TmdbService.GenreName(ids[0])
  {
    var name := TmdbService.GenreName(ids[0]);
    TmdbService.GenreNameTrimmed(ids[0]);
    TmdbService.GenreNameNoComma(ids[0]);
    assert TmdbService.GetGenres(ids) == name;
    OneEntry(name);
  }

  lemma GenreEntriesOfTwo(ids: seq<int>)
    requires |ids| >= 2
    ensures var entries := Split(TmdbService.GetGenres(ids), ',');
      |entries| == 2
      && Strip(entries[0]) == TmdbService.GenreName(ids[0])
      && Strip(entries[1]) == TmdbService.GenreName(ids[1])
  {
    var names := TmdbService.GenreNames(ids);
    var first, second := TmdbService.GenreName(ids[0]), TmdbService.GenreName(ids[1]);
    TmdbService.GenreNameTrimmed(ids[0]);
    TmdbService.GenreNameNoComma(ids[0]);
    TmdbService.GenreNameTrimmed(ids[1]);
    TmdbService.GenreNameNoComma(ids[1]);
    assert names == [first, second];
    assert names[1..] == [second];
    assert Join(", ", names[1..]) == second;
    assert TmdbService.GetGenres(ids) == first + ", " + second;
    TwoEntries(first, second);
  }

  /** A trimmed name without a comma is a single entry. */
  lemma OneEntry(name: string)
    requires name != [] && !IsSpace(name[0]) && !IsSpace(name[|name| - 1]) && ',' !in name
    ensures Split(name, ',') == [name] && Strip(name) == name
  {
    SplitWithout(name, ',');
    StripStripped(name);
  }

  /** Two trimmed names without commas, joined by `", "`, split back into two entries that
      strip to the names. */
  lemma TwoEntries(first: string, second: string)
    requires first != [] && !IsSpace(first[0]) && !IsSpace(first[|first| - 1]) && ',' !in first
    requires second != [] && !IsSpace(second[0]) && !IsSpace(second[|second| - 1]) && ',' !in second
    ensures var entries := Split(first + ", " + second, ',');
      |entries| == 2 && Strip(entries[0]) == first && Strip(entries[1]) == second
  {
    OneEntry(first);
    OneEntry(second);
    StripAfterSpace(' ', second);
    var tail := " " + second;
    assert first + ", " + second == first + [','] + tail;
    assert ',' !in tail;
    SplitAt(first, ',', tail);
    SplitWithout(tail, ',');
  }

  // ---- Caption ----

  const TitleLabel: string := "🎬 *Película:* "
  const YearLabel: string := "\n📅 *Año:* "
  const RatingLabel: string := "\n🌎 *Idioma:* Latino 🇨🇴🇲🇽\n💿 *Calidad:* HD\n⭐ *Calificación:* "
  const GenreLabel: string := "\n🎭 *Género:* "
  const SynopsisLabel: string := "\n\n📝 *Sinopsis:*\n"
  const Ellipsis: string := "...\n\n"
  const Footer: string := "\n\n🔗 *Síguenos en Instagram:*"
  const SynopsisLimit: nat := 800

  /** `description[:800]` */
  function Excerpt(synopsis: string): string {
    Take(synopsis, SynopsisLimit)
  }

  /** The caption text up to the synopsis: the title line, then the other fields. */
  function CaptionHead(title: string, year: string, rating: string, genre: string): string {
    TitleLabel + title + HeadFields(year, rating, genre)
  }

  function HeadFields(year: string, rating: string, genre: string): string {
    YearLabel + year + RatingLabel + rating + GenreLabel + genre + SynopsisLabel
  }

  /** The video caption: it opens with the title line, the hashtag line comes right before the
      footer, and only the shown part of the synopsis varies its length with the synopsis. */
  function Caption(title: string, year: string, rating: string, genre: string, synopsis: string, hashtags: string): (c: string)
    ensures var opening := TitleLabel + title;
      |opening| <= |c| && c[..|opening|] == opening
    ensures var closing := hashtags + Footer;
      |closing| <= |c| && c[|c| - |closing|..] == closing
    ensures |c| == |CaptionHead(title, year, rating, genre)| + (if |synopsis| < SynopsisLimit then |synopsis| else SynopsisLimit)
                   + |Ellipsis| + |hashtags| + |Footer|
  {
    var head := CaptionHead(title, year, rating, genre);
    Parts(head, Excerpt(synopsis), Ellipsis, hashtags, Footer);
    Framed(TitleLabel + title, HeadFields(year, rating, genre), []);
    head + Excerpt(synopsis) + Ellipsis + hashtags + Footer
  }

  /** A text made of three parts starts with the first and ends with the last. */
  lemma Framed(opening: string, middle: string, closing: string)
    ensures var c := opening + middle + closing;
      c[..|opening|] == opening && c[|c| - |closing|..] == closing
  {
    var c := opening + middle + closing;
    assert c == opening + (middle + closing);
  }

  /** Where the five parts of a caption sit in it. */
  lemma Parts(head: string, shown: string, ellipsis: string, hashtags: string, footer: string)
    ensures var c := head + shown + ellipsis + hashtags + footer;
      c[..|head|] == head
      && c[|head|..|head| + |shown| + |ellipsis|] == shown + ellipsis
      && c[|c| - |hashtags + footer|..] == hashtags + footer
  {
    var c := head + shown + ellipsis + hashtags + footer;
    assert c == head + (shown + ellipsis) + (hashtags + footer);
  }

  /** The caption shows at most the first 800 characters of the synopsis, then "...". */
  lemma CaptionSynopsis(title: string, year: string, rating: string, genre: string, synopsis: string, hashtags: string)
    ensures var c := Caption(title, year, rating, genre, synopsis, hashtags);
      var head := CaptionHead(title, year, rating, genre);
      var shown := Take(synopsis, SynopsisLimit);
      |shown| == (if |synopsis| < SynopsisLimit then |synopsis| else SynopsisLimit)
      && shown == synopsis[..|shown|]
      && OccursAt(c, shown + "...", |head|)
  {
    var c := Caption(title, year, rating, genre, synopsis, hashtags);
    var head := CaptionHead(title, year, rating, genre);
    var shown := Take(synopsis, SynopsisLimit);
    Parts(head, shown, Ellipsis, hashtags, Footer);
    assert Ellipsis[..3] == "...";
    assert c[|head|..|head| + |shown| + 3] == (shown + Ellipsis)[..|shown| + 3];
  }

  /** The rest of the synopsis has no effect on the caption. */
  lemma CaptionIgnoresSynopsisTail(title: string, year: string, rating: string, genre: string,
                                   synopsis: string, other: string, hashtags: string)
    requires |synopsis| >= SynopsisLimit && |other| >= SynopsisLimit
    requires synopsis[..SynopsisLimit] == other[..SynopsisLimit]
    ensures Caption(title, year, rating, genre, synopsis, hashtags) == Caption(title, year, rating, genre, other, hashtags)
  {
    assert Excerpt(synopsis) == Excerpt(other);
  }

  // ---- The flow ----

  /** `getattr(video, 'file_name', None) or "Unknown_Movie.mp4"` */
  function FileName(media: Media): (name: string)
    requires media.Media?
    ensures name != []
    ensures Truthy(media.fileName) ==> name == media.fileName.value
    ensures !Truthy(media.fileName) ==> name == DefaultFileName
  {
    if Truthy(media.fileName) then media.fileName.value else DefaultFileName
  }

  /** The log of the two catalog searches: with the year, then, only when that found nothing
      and there is a year, without it. */
  function Searches(title: string, year: Option<string>, env: Env): (log: seq<Event>)
    ensures 1 <= |log| <= 2
    ensures forall k :: 0 <= k < |log| ==> log[k].Lookup? && log[k].title == title
  {
    var first := TmdbService.SearchSpec(env.apiKey, env.catalog, env.translate, title, year);
    if first.found.None? && Truthy(year)
    then [Lookup(title, year, first), Lookup(title, None, TmdbService.SearchSpec(env.apiKey, env.catalog, env.translate, title, None))]
    else [Lookup(title, year, first)]
  }

  /** The record the handler goes on with: the search with the year, or, when that found
      nothing and there is a year, the one without it. */
  function Found(title: string, year: Option<string>, env: Env): Option<TmdbService.Movie> {
    var first := TmdbService.SearchSpec(env.apiKey, env.catalog, env.translate, title, year).found;
    if first.None? && Truthy(year)
    then TmdbService.SearchSpec(env.apiKey, env.catalog, env.translate, title, None).found
    else first
  }

  /** The search without the year runs only after the one with it found nothing, and only when
      there is a year; the record used is what the last search found, so nothing is used when
      no search found anything. */
  lemma SecondSearchOnlyAfterMiss(title: string, year: Option<string>, env: Env)
    ensures var log := Searches(title, year, env);
      var first := TmdbService.SearchSpec(env.apiKey, env.catalog, env.translate, title, year);
      log[0] == Lookup(title, year, first)
      && (|log| == 2 <==> first.found.None? && Truthy(year))
      && (|log| == 2 ==> log[1].year == None)
      && Found(title, year, env) == log[|log| - 1].search.found
      && (Found(title, year, env).None? <==> forall k :: 0 <= k < |log| ==> log[k].search.found.None?)
  {
  }

  /** The two catalog searches of `video_entry`. */
  method LookUp(title: string, year: Option<string>, env: Env) returns (found: Option<TmdbService.Movie>, events: seq<Event>)
    ensures events == Searches(title, year, env) && found == Found(title, year, env)
  {
    var requests;
    found, requests := TmdbService.SearchMovie(env.apiKey, env.catalog, env.translate, title, year);
    events := [Lookup(title, year, TmdbService.Search(found, requests))];
    if found.None? && Truthy(year) {
      found, requests := TmdbService.SearchMovie(env.apiKey, env.catalog, env.translate, title, None);
      events := events + [Lookup(title, None, TmdbService.Search(found, requests))];
    }
  }

  /** The event neither sends, nor sleeps, nor announces success. */
  predicate Quiet(e: Event) {
    !e.Send? && !e.Sleep? && !(e.Reply? && e.notice.PublishedNotice?)
  }

  /** Nothing in the log sends, sleeps or announces success. */
  predicate Silent(log: seq<Event>) {
    forall k :: 0 <= k < |log| ==> Quiet(log[k])
  }

  lemma SilentAppend(a: seq<Event>, b: seq<Event>)
    requires Silent(a) && Silent(b)
    ensures Silent(a + b)
  {
    forall k | 0 <= k < |a + b| ensures Quiet((a + b)[k]) {
      if k < |a| { assert (a + b)[k] == a[k]; } else { assert (a + b)[k] == b[k - |a|]; }
    }
  }

  /** A silent log consumed no answer, slept no time and announced nothing. */
  lemma {:induction false} SilentViews(log: seq<Event>)
    requires Silent(log)
    ensures Answers(log) == [] && Slept(log) == 0 && Unannounced(log)
  {
    if log != [] {
      assert Silent(log[1..]) by {
        forall k | 0 <= k < |log[1..]| ensures log[1..][k] == log[k + 1] { }
      }
      SilentViews(log[1..]);
      OneEvent(log[0]);
      assert log == [log[0]] + log[1..];
      RepliesAppend([log[0]], log[1..]);
      AnswersAppend([log[0]], log[1..]);
      SleptAppend([log[0]], log[1..]);
    }
  }

  /** Everything the handler does before its first send is silent: replies other than the
      success message, and searches. */
  lemma PrepareIsSilent(media: Media, env: Env, answers: seq<SendOutcome>)
    ensures Silent(Prepare(media, env, answers).log)
  {
    if media.Media? {
      ExamineIsSilent(FilenameParser.ParseFilename(FileName(media), env.guessit), media.fileId, env, answers);
    }
  }

  lemma ExamineIsSilent(parsed: Option<Candidate>, fileId: string, env: Env, answers: seq<SendOutcome>)
    ensures Silent(Examine(parsed, fileId, env, answers).log)
  {
    match parsed
    case None =>
      var log := [Reply(Processing), Reply(CannotParse)];
      assert Quiet(log[0]) && Quiet(log[1]);
    case Some(c) =>
      var opening := Opening(c, env);
      OpeningIsSilent(c, env);
      match Found(c.title, c.year, env)
      case None =>
        SilentAppend(opening, [Reply(NothingFound(c.title))]);
      case Some(movie) =>
        VetIsSilent(movie, fileId, env, answers);
        SilentAppend(opening, Vet(movie, fileId, env, answers).log);
  }

  lemma OpeningIsSilent(c: Candidate, env: Env)
    ensures Silent(Opening(c, env))
  {
    var searches := Searches(c.title, c.year, env);
    assert Silent(searches);
    SilentAppend([Reply(Processing), Reply(Analyzing(c.title, if Truthy(c.year) then c.year.value else "?"))], searches);
  }

  lemma VetIsSilent(movie: TmdbService.Movie, fileId: string, env: Env, answers: seq<SendOutcome>)
    ensures Silent(Vet(movie, fileId, env, answers).log)
  {
  }

  /** What the handler is to do: stop, with its log so far, or go on to post, with its log so
      far, what it will post, and the run that posting makes on the channel's answers. */
  datatype Plan =
    | Halt(outcome: Outcome, log: seq<Event>)
    | Post(log: seq<Event>, fileId: string, title: string, year: string, rating: string,
           genre: string, description: Option<string>, imagePath: string, withImage: bool, run: PostRun)

  /** The checks on the record found, up to the image post, with the replies they send: a
      null `release_date`, `vote_average` or `genre_ids` raises; a record without a poster
      path or a year is refused; then the poster is generated. */
  function Vet(movie: TmdbService.Movie, fileId: string, env: Env, answers: seq<SendOutcome>): (plan: Plan)
    ensures plan.Halt? ==> plan.outcome in {Crashed, Incomplete, RenderFailed}
  {
    if movie.releaseDate.None? || movie.voteAverage.None? || movie.genreIds.None? then Halt(Crashed, [])
    else
      var year := Take(movie.releaseDate.value, 4);
      if !Truthy(movie.posterPath) || year == [] then
        Halt(Incomplete, [Reply(MissingPosterOrYear(Shown(movie.title)))])
      else
        match env.render(TmdbService.PosterUrl(movie.posterPath).value, movie.title, movie.overview)
        case RenderRaised => Halt(RenderFailed, [Reply(GeneratingPoster), Reply(PosterError)])
        case Rendered(path) =>
          var title, genre, withImage := Shown(movie.title), TmdbService.GetGenres(movie.genreIds.value), path != [] && env.onDisk(path);
          Post([Reply(GeneratingPoster)], fileId, title, year, movie.voteAverage.value, genre, movie.overview, path, withImage,
               PostingRun(fileId, title, year, movie.voteAverage.value, genre, movie.overview, path, withImage, answers))
  }

  /** The log up to and including the searches for a parsed title. */
  function Opening(c: Candidate, env: Env): seq<Event> {
    [Reply(Processing), Reply(Analyzing(c.title, if Truthy(c.year) then c.year.value else "?"))]
    + Searches(c.title, c.year, env)
  }

  /** `video_entry` from the parse result up to the image post: the error reply when nothing
      was parsed, the searches, and the checks on the record found. */
  function Examine(parsed: Option<Candidate>, fileId: string, env: Env, answers: seq<SendOutcome>): (plan: Plan)
    ensures plan.Halt? ==> plan.outcome in {ParseFailed, NotFound, Crashed, Incomplete, RenderFailed}
  {
    match parsed
    case None => Halt(ParseFailed, [Reply(Processing), Reply(CannotParse)])
    case Some(c) =>
      match Found(c.title, c.year, env)
      case None => Halt(NotFound, Opening(c, env) + [Reply(NothingFound(c.title))])
      case Some(movie) =>
        var vetted := Vet(movie, fileId, env, answers);
        vetted.(log := Opening(c, env) + vetted.log)
  }

  /** `video_entry` up to the image post: nothing for a message without media; otherwise the
      opening reply, the filename parse, the searches and the checks on the record. */
  function Prepare(media: Media, env: Env, answers: seq<SendOutcome>): (plan: Plan)
    ensures plan.Halt? ==> plan.outcome in {Ignored, ParseFailed, NotFound, Crashed, Incomplete, RenderFailed}
  {
    if media.NoMedia? then Halt(Ignored, [])
    else Examine(FilenameParser.ParseFilename(FileName(media), env.guessit), media.fileId, env, answers)
  }

  /** What a posting step leaves behind: how it ended, its log, and how many answers it took. */
  datatype PostRun = PostRun(outcome: Outcome, events: seq<Event>, used: nat)

  /** The outcome the video post's settling answer gives: `Sent` publishes, any other answer is
      a channel error, and running out of answers stalls. */
  function Verdict(settled: Option<SendOutcome>): Outcome {
    match settled
    case None => Stalled
    case Some(Failed(e)) => PublishFailed(e)
    case Some(_) => Published
  }

  /** The reply that ends the video post: the success message, the channel's error, or none
      when the answers ran out. */
  function Closing(outcome: Outcome, title: string, year: string): seq<Event> {
    match outcome
    case Published => [Reply(PublishedNotice(title, year))]
    case PublishFailed(e) => [Reply(ChannelError(e))]
    case _ => []
  }

  /** The video post on the given answers: the send loop, then the reply its settling answer
      calls for. */
  function VideoRun(fileId: string, caption: string, title: string, year: string, answers: seq<SendOutcome>): PostRun {
    var used := Spent(answers);
    var outcome := Verdict(Settling(answers));
    PostRun(outcome, RetryLog(Video(fileId, caption), answers[..used]) + Closing(outcome, title, year), used)
  }

  /** The video caption `video_entry` builds for a record. */
  function VideoCaption(title: string, year: string, rating: string, genre: string, synopsis: string): string {
    Caption(title, year, rating, genre, synopsis, Join(" ", Hashtags(genre)))
  }

  /** Everything after the image: a null synopsis fails when the caption is built, before any
      send; otherwise the video post under the record's caption. */
  function AnnounceRun(fileId: string, title: string, year: string, rating: string, genre: string,
                       description: Option<string>, answers: seq<SendOutcome>): PostRun {
    match description
    case None => PostRun(PublishFailed(NoneNotSubscriptable), [Reply(ChannelError(NoneNotSubscriptable))], 0)
    case Some(synopsis) => VideoRun(fileId, VideoCaption(title, year, rating, genre, synopsis), title, year, answers)
  }

  /** The whole `try` block: when the image exists, its send loop first, which ends the posting
      if the answers run out and otherwise passes the rest of the answers on; then the rest. */
  function PostingRun(fileId: string, title: string, year: string, rating: string, genre: string,
                      description: Option<string>, imagePath: string, withImage: bool,
                      answers: seq<SendOutcome>): PostRun {
    if !withImage then AnnounceRun(fileId, title, year, rating, genre, description, answers)
    else
      var k := Spent(answers);
      var photo := RetryLog(Photo(imagePath), answers[..k]);
      if Settling(answers).None? then PostRun(Stalled, photo, k)
      else
        var rest := AnnounceRun(fileId, title, year, rating, genre, description, answers[k..]);
        PostRun(rest.outcome, photo + rest.events, k + rest.used)
  }

  /** The image post: sent, with retries, only when the renderer's path is non-empty and the
      file exists; a final refusal skips the image. `stalled` when the answers ran out. */
  method PostPhoto(imagePath: string, onDisk: string -> bool, answers: seq<SendOutcome>)
      returns (used: nat, events: seq<Event>, stalled: bool)
    ensures Consumed(events, answers, used)
    ensures Lookups(events) == [] && Replies(events) == []
    ensures stalled ==> used == |answers|
    ensures imagePath == [] || !onDisk(imagePath) ==> used == 0 && events == [] && !stalled
    ensures imagePath != [] && onDisk(imagePath) ==>
      used == Spent(answers) && events == RetryLog(Photo(imagePath), answers[..used])
      && (stalled <==> Settling(answers).None?)
  {
    used, events, stalled := 0, [], false;
    if imagePath != [] && onDisk(imagePath) {
      var settled;
      used, events, settled := SendWithRetry(Photo(imagePath), answers);
      RetryLogViews(Photo(imagePath), answers[..used]);
      stalled := settled.None?;
    }
  }

  /** What posting leaves behind: the answers used are consumed in order, nothing is looked
      up, the outcome is success, a channel error or running out of answers (which uses them
      all), success is announced once and last, right after `success`, and a channel error is
      reported last. */
  predicate Posted(events: seq<Event>, answers: seq<SendOutcome>, used: nat, outcome: Outcome, success: seq<Event>) {
    Consumed(events, answers, used) && Lookups(events) == []
    && (outcome == Published || outcome.PublishFailed? || outcome == Stalled)
    && (outcome == Stalled ==> used == |answers|)
    && AnnouncedLast(events, outcome == Published)
    && (outcome == Published ==> EndsWith(events, success))
    && (outcome.PublishFailed? ==> EndsWith(events, [Reply(ChannelError(outcome.error))]))
  }

  /** The video post: sent with its caption, with retries and a wait notice for each; then the
      success reply, or the error reply when the channel refused. */
  method PostVideo(fileId: string, caption: string, title: string, year: string, answers: seq<SendOutcome>)
      returns (outcome: Outcome, events: seq<Event>, used: nat)
    ensures Posted(events, answers, used, outcome, [Send(Video(fileId, caption), Sent), Reply(PublishedNotice(title, year))])
    ensures PostRun(outcome, events, used) == VideoRun(fileId, caption, title, year, answers)
  {
    var settled;
    used, events, settled := SendWithRetry(Video(fileId, caption), answers);
    match settled {
      case None =>
        outcome := Stalled;
        assert events + Closing(outcome, title, year) == events;
      case Some(Failed(e)) =>
        events := events + [Reply(ChannelError(e))];
        outcome := PublishFailed(e);
      case Some(_) =>
        events := events + [Reply(PublishedNotice(title, year))];
        outcome := Published;
    }
    VideoRunPosted(fileId, caption, title, year, answers);
  }

  /** The video post's run keeps what posting promises. */
  lemma VideoRunPosted(fileId: string, caption: string, title: string, year: string, answers: seq<SendOutcome>)
    ensures var run := VideoRun(fileId, caption, title, year, answers);
      Posted(run.events, answers, run.used, run.outcome, [Send(Video(fileId, caption), Sent), Reply(PublishedNotice(title, year))])
  {
    var upload := Video(fileId, caption);
    var used := Spent(answers);
    var outcome := Verdict(Settling(answers));
    var loop := RetryLog(upload, answers[..used]);
    SettlingByRun(answers);
    RetryLogConsumed(upload, answers, used);
    if outcome == Published {
      SettledLast(upload, answers);
    }
    LoopClosed(loop, answers, used, outcome, title, year, [Send(upload, Sent), Reply(PublishedNotice(title, year))]);
  }

  /** A send loop's log closed by the reply its outcome calls for keeps what posting promises. */
  lemma LoopClosed(loop: seq<Event>, answers: seq<SendOutcome>, used: nat, outcome: Outcome,
                   title: string, year: string, success: seq<Event>)
    requires Consumed(loop, answers, used) && Lookups(loop) == [] && Unannounced(loop)
    requires outcome == Published || outcome.PublishFailed? || outcome == Stalled
    requires outcome == Stalled ==> used == |answers|
    requires outcome == Published ==> loop != [] && success == [loop[|loop| - 1], Reply(PublishedNotice(title, year))]
    ensures Posted(loop + Closing(outcome, title, year), answers, used, outcome, success)
  {
    match outcome
    case Published =>
      CloseWith(loop, answers, used, PublishedNotice(title, year));
    case PublishFailed(e) =>
      CloseWith(loop, answers, used, ChannelError(e));
    case Stalled =>
      UnannouncedIsAnnouncedLast(loop);
      assert loop + Closing(outcome, title, year) == loop;
  }

  /** A loop that settles ends with the send that got the settling answer. */
  lemma SettledLast(upload: Upload, answers: seq<SendOutcome>)
    requires Settling(answers).Some?
    ensures var loop := RetryLog(upload, answers[..Spent(answers)]);
      loop != [] && loop[|loop| - 1] == Send(upload, Settling(answers).value)
  {
    SettlingByRun(answers);
    var n := RetryRun(answers);
    assert answers[..n + 1] == answers[..n] + [answers[n]];
    RetryLogSnoc(upload, answers[..n], answers[n]);
  }

  /** The two events a publication ends with: the video under its caption went out, and the
      success reply. Without a synopsis nothing can be published, and there are none. */
  function VideoPosted(fileId: string, title: string, year: string, rating: string, genre: string,
                       description: Option<string>): seq<Event>
  {
    match description
    case None => []
    case Some(synopsis) =>
      [Send(Video(fileId, VideoCaption(title, year, rating, genre, synopsis)), Sent), Reply(PublishedNotice(title, year))]
  }

  /** After the image: build the hashtags and the caption, post the video, and report. A null
      synopsis fails when the caption is built. */
  method Announce(fileId: string, title: string, year: string, rating: string, genre: string,
                  description: Option<string>, answers: seq<SendOutcome>)
      returns (outcome: Outcome, events: seq<Event>, used: nat)
    ensures Posted(events, answers, used, outcome, VideoPosted(fileId, title, year, rating, genre, description))
    ensures PostRun(outcome, events, used) == AnnounceRun(fileId, title, year, rating, genre, description, answers)
  {
    var tags := HashtagList(genre);
    var hashtags := Join(" ", tags);
    if description.None? {
      outcome, events, used := PublishFailed(NoneNotSubscriptable), [Reply(ChannelError(NoneNotSubscriptable))], 0;
      OneEvent(events[0]);
      return;
    }
    var caption := Caption(title, year, rating, genre, description.value, hashtags);
    outcome, events, used := PostVideo(fileId, caption, title, year, answers);
    AnnounceRunPosted(fileId, title, year, rating, genre, description, answers);
  }

  /** Everything after the image keeps what posting promises. */
  lemma AnnounceRunPosted(fileId: string, title: string, year: string, rating: string, genre: string,
                          description: Option<string>, answers: seq<SendOutcome>)
    ensures var run := AnnounceRun(fileId, title, year, rating, genre, description, answers);
      Posted(run.events, answers, run.used, run.outcome, VideoPosted(fileId, title, year, rating, genre, description))
  {
    match description
    case None =>
      OneEvent(Reply(ChannelError(NoneNotSubscriptable)));
    case Some(synopsis) =>
      VideoRunPosted(fileId, VideoCaption(title, year, rating, genre, synopsis), title, year, answers);
  }

  /** The `try` block of `video_entry`: post the image when it exists, then the video. Without
      a synopsis the run never succeeds. */
  method Publish(fileId: string, title: string, year: string, rating: string, genre: string,
                 description: Option<string>, imagePath: string, onDisk: string -> bool,
                 answers: seq<SendOutcome>)
      returns (outcome: Outcome, events: seq<Event>, used: nat)
    ensures Posted(events, answers, used, outcome, VideoPosted(fileId, title, year, rating, genre, description))
    ensures PostRun(outcome, events, used)
            == PostingRun(fileId, title, year, rating, genre, description, imagePath, imagePath != [] && onDisk(imagePath), answers)
  {
    var withImage := imagePath != [] && onDisk(imagePath);
    var photo, stalled;
    used, photo, stalled := PostPhoto(imagePath, onDisk, answers);
    if stalled {
      PublishStalled(fileId, title, year, rating, genre, description, imagePath, withImage, answers, photo, used);
      return Stalled, photo, used;
    }
    outcome, events, used := PublishRest(fileId, title, year, rating, genre, description, imagePath, withImage,
                                         answers, photo, used);
    PostingRunPosted(fileId, title, year, rating, genre, description, imagePath, withImage, answers);
  }

  /** The `try` block after a settled image post, or without one: the announcement on the
      answers the image left, following the image's log. */
  method PublishRest(fileId: string, title: string, year: string, rating: string, genre: string,
                     description: Option<string>, imagePath: string, withImage: bool,
                     answers: seq<SendOutcome>, photo: seq<Event>, photoUsed: nat)
      returns (outcome: Outcome, events: seq<Event>, used: nat)
    requires !withImage ==> photoUsed == 0 && photo == []
    requires withImage ==>
      photoUsed == Spent(answers) && photo == RetryLog(Photo(imagePath), answers[..photoUsed]) && Settling(answers).Some?
    ensures PostRun(outcome, events, used)
            == PostingRun(fileId, title, year, rating, genre, description, imagePath, withImage, answers)
  {
    var posting, sent;
    outcome, posting, sent := Announce(fileId, title, year, rating, genre, description, answers[photoUsed..]);
    PublishAfterPhoto(fileId, title, year, rating, genre, description, imagePath, withImage, answers,
                      photo, photoUsed, outcome, posting, sent);
    events := photo + posting;
    used := photoUsed + sent;
  }

  /** The image post ran out of answers: the posting ends there. */
  lemma PublishStalled(fileId: string, title: string, year: string, rating: string, genre: string,
                       description: Option<string>, imagePath: string, withImage: bool,
                       answers: seq<SendOutcome>, photo: seq<Event>, used: nat)
    requires withImage && used == Spent(answers) && photo == RetryLog(Photo(imagePath), answers[..used])
    requires Settling(answers).None?
    ensures Posted(photo, answers, used, Stalled, VideoPosted(fileId, title, year, rating, genre, description))
    ensures PostRun(Stalled, photo, used)
            == PostingRun(fileId, title, year, rating, genre, description, imagePath, withImage, answers)
  {
    PhotoLogSilent(imagePath, answers);
    SettlesLast(answers);
    StalledOnPhoto(photo, answers, used, VideoPosted(fileId, title, year, rating, genre, description));
    PostingStalls(fileId, title, year, rating, genre, description, imagePath, withImage, answers);
  }

  /** The image post, when there was one, settled; the rest of the posting follows it. */
  lemma PublishAfterPhoto(fileId: string, title: string, year: string, rating: string, genre: string,
                          description: Option<string>, imagePath: string, withImage: bool,
                          answers: seq<SendOutcome>, photo: seq<Event>, used: nat,
                          outcome: Outcome, posting: seq<Event>, sent: nat)
    requires !withImage ==> used == 0 && photo == []
    requires withImage ==>
      used == Spent(answers) && photo == RetryLog(Photo(imagePath), answers[..used]) && Settling(answers).Some?
    requires PostRun(outcome, posting, sent) == AnnounceRun(fileId, title, year, rating, genre, description, answers[used..])
    ensures PostRun(outcome, photo + posting, used + sent)
            == PostingRun(fileId, title, year, rating, genre, description, imagePath, withImage, answers)
  {
    if withImage {
      PostingAfterImage(fileId, title, year, rating, genre, description, imagePath, withImage, answers);
    } else {
      PostingWithoutImage(fileId, title, year, rating, genre, description, imagePath, withImage, answers);
      assert answers[used..] == answers && photo + posting == posting;
    }
  }

  lemma PostingStalls(fileId: string, title: string, year: string, rating: string, genre: string,
                      description: Option<string>, imagePath: string, withImage: bool,
                      answers: seq<SendOutcome>)
    requires withImage && Settling(answers).None?
    ensures PostingRun(fileId, title, year, rating, genre, description, imagePath, withImage, answers)
            == PostRun(Stalled, RetryLog(Photo(imagePath), answers[..Spent(answers)]), Spent(answers))
  {
  }

  lemma PostingAfterImage(fileId: string, title: string, year: string, rating: string, genre: string,
                          description: Option<string>, imagePath: string, withImage: bool,
                          answers: seq<SendOutcome>)
    requires withImage && Settling(answers).Some?
    ensures var k := Spent(answers);
      var rest := AnnounceRun(fileId, title, year, rating, genre, description, answers[k..]);
      PostingRun(fileId, title, year, rating, genre, description, imagePath, withImage, answers)
      == PostRun(rest.outcome, RetryLog(Photo(imagePath), answers[..k]) + rest.events, k + rest.used)
  {
  }

  lemma PostingWithoutImage(fileId: string, title: string, year: string, rating: string, genre: string,
                            description: Option<string>, imagePath: string, withImage: bool,
                            answers: seq<SendOutcome>)
    requires !withImage
    ensures PostingRun(fileId, title, year, rating, genre, description, imagePath, withImage, answers)
            == AnnounceRun(fileId, title, year, rating, genre, description, answers)
  {
  }

  /** The whole posting run keeps what posting promises: the image post before the video post
      consumes its answers silently. */
  lemma PostingRunPosted(fileId: string, title: string, year: string, rating: string, genre: string,
                         description: Option<string>, imagePath: string, withImage: bool,
                         answers: seq<SendOutcome>)
    ensures var run := PostingRun(fileId, title, year, rating, genre, description, imagePath, withImage, answers);
      Posted(run.events, answers, run.used, run.outcome, VideoPosted(fileId, title, year, rating, genre, description))
  {
    var run := PostingRun(fileId, title, year, rating, genre, description, imagePath, withImage, answers);
    var success := VideoPosted(fileId, title, year, rating, genre, description);
    if !withImage {
      AnnounceRunPosted(fileId, title, year, rating, genre, description, answers);
      assert run == AnnounceRun(fileId, title, year, rating, genre, description, answers);
    } else {
      var k := Spent(answers);
      var photo := RetryLog(Photo(imagePath), answers[..k]);
      PhotoLogSilent(imagePath, answers);
      if Settling(answers).None? {
        SettlesLast(answers);
        StalledOnPhoto(photo, answers, k, success);
        assert run == PostRun(Stalled, photo, k);
      } else {
        var rest := AnnounceRun(fileId, title, year, rating, genre, description, answers[k..]);
        AnnounceRunPosted(fileId, title, year, rating, genre, description, answers[k..]);
        PostsAfterPhoto(photo, rest.events, answers, k, rest.used, rest.outcome, success);
        assert run == PostRun(rest.outcome, photo + rest.events, k + rest.used);
      }
    }
  }

  /** The image post's loop consumes its answers, and neither searches nor replies. */
  lemma PhotoLogSilent(imagePath: string, answers: seq<SendOutcome>)
    ensures var photo := RetryLog(Photo(imagePath), answers[..Spent(answers)]);
      Consumed(photo, answers, Spent(answers)) && Lookups(photo) == [] && Replies(photo) == []
  {
    RetryLogViews(Photo(imagePath), answers[..Spent(answers)]);
  }

  /** Running out of answers on the photo post ends the posting. */
  lemma StalledOnPhoto(photo: seq<Event>, answers: seq<SendOutcome>, used: nat, success: seq<Event>)
    requires Consumed(photo, answers, used) && Lookups(photo) == [] && Replies(photo) == []
    requires used == |answers|
    ensures Posted(photo, answers, used, Stalled, success)
  {
    UnannouncedIsAnnouncedLast(photo);
  }

  /** The photo post, silent and search-free, keeps what the video post establishes. */
  lemma PostsAfterPhoto(photo: seq<Event>, posting: seq<Event>, answers: seq<SendOutcome>, i: nat, j: nat,
                        outcome: Outcome, success: seq<Event>)
    requires Consumed(photo, answers, i) && Lookups(photo) == [] && Replies(photo) == []
    requires Posted(posting, answers[i..], j, outcome, success)
    ensures Posted(photo + posting, answers, i + j, outcome, success)
  {
    AfterSilentPrefix(photo, posting, answers, i, j, outcome == Published);
    EndsWithAfter(photo, posting, success);
    if outcome.PublishFailed? {
      EndsWithAfter(photo, posting, [Reply(ChannelError(outcome.error))]);
    }
  }

  /** The settling answer is the last answer the loop takes; without one the loop takes them
      all. */
  lemma SettlesLast(answers: seq<SendOutcome>)
    ensures Settling(answers).Some? ==> Spent(answers) > 0 && answers[Spent(answers) - 1] == Settling(answers).value
    ensures Settling(answers).None? ==> Spent(answers) == |answers|
  {
    SettlingByRun(answers);
  }

  /** The first answer after the leading waits decides the video post: it stalls exactly when
      there is none, publishes exactly when that answer is `Sent`, and reports that answer's
      error otherwise; the replies are one wait notice per wait, then the closing reply. */
  lemma VideoDecides(fileId: string, caption: string, title: string, year: string, answers: seq<SendOutcome>)
    ensures var run := VideoRun(fileId, caption, title, year, answers);
      var n := RetryRun(answers);
      (run.outcome == Stalled <==> n == |answers|)
      && (n == |answers| ==> run.used == |answers|)
      && (n < |answers| ==>
            run.used == n + 1
            && (run.outcome == Published <==> answers[n] == Sent)
            && (answers[n].Failed? ==> run.outcome == PublishFailed(answers[n].error)))
      && Replies(run.events) == WaitNotices(answers[..run.used]) + Replies(Closing(run.outcome, title, year))
  {
    var run := VideoRun(fileId, caption, title, year, answers);
    SettlingByRun(answers);
    var loop := RetryLog(Video(fileId, caption), answers[..run.used]);
    RetryLogReplies(Video(fileId, caption), answers[..run.used]);
    RepliesAppend(loop, Closing(run.outcome, title, year));
  }

  /** What decides a posting run: it takes no more answers than there are; it publishes only
      with a synopsis and when the last answer it took accepted the video; a refused video is
      reported with the last answer's error; it stalls only after taking every answer; and
      when the image exists the image is sent first. */
  lemma PostingDecides(fileId: string, title: string, year: string, rating: string, genre: string,
                       description: Option<string>, imagePath: string, withImage: bool,
                       answers: seq<SendOutcome>)
    ensures var run := PostingRun(fileId, title, year, rating, genre, description, imagePath, withImage, answers);
      run.used <= |answers|
      && (run.outcome == Published ==> description.Some? && run.used > 0 && answers[run.used - 1] == Sent)
      && (run.outcome.PublishFailed? && description.Some? ==>
            run.used > 0 && answers[run.used - 1] == Failed(run.outcome.error))
      && (run.outcome == Stalled ==> run.used == |answers|)
      && (withImage && answers != [] ==> run.events != [] && run.events[0] == Send(Photo(imagePath), answers[0]))
  {
    SettlesLast(answers);
    if withImage {
      var k := Spent(answers);
      var photo := RetryLog(Photo(imagePath), answers[..k]);
      if answers != [] {
        assert answers[..k][0] == answers[0];
        assert photo == Attempt(Photo(imagePath), answers[0]) + RetryLog(Photo(imagePath), answers[..k][1..]);
      }
      if Settling(answers).Some? {
        var rest := answers[k..];
        SettlesLast(rest);
        if description.Some? && Settling(rest).Some? {
          assert rest[Spent(rest) - 1] == answers[k + Spent(rest) - 1];
        }
      }
    }
  }

  // ---- The handler ----

  /** The run carries out the plan. A halting plan's log is the whole log, and no answer is
      consumed. A posting plan's log is followed by the posts, which consume the answers in
      order, search nothing, and end in success, a channel error or running out of answers;
      success is announced once, last, and right after the video went out. */
  predicate Realizes(plan: Plan, answers: seq<SendOutcome>, outcome: Outcome, events: seq<Event>, used: nat) {
    Consumed(events, answers, used)
    && AnnouncedLast(events, outcome == Published)
    && match plan
       case Halt(o, log) => outcome == o && events == log && used == 0
       case Post(log, _, _, _, _, _, _, _, _, run) =>
         outcome == run.outcome && events == log + run.events && used == run.used
         && Lookups(events) == Lookups(log)
  }

  /** A run that carries out a posting plan follows the plan's log with the posts, which
      search nothing and end in success, a channel error or running out of answers (having
      used them all); success needs a synopsis and ends the log with the video going out and
      the success reply, and a channel error is reported last. */
  lemma PostPlanCarried(plan: Plan, answers: seq<SendOutcome>, outcome: Outcome, events: seq<Event>, used: nat)
    requires plan.Post? && Realizes(plan, answers, outcome, events, used)
    requires plan.run == PostingRun(plan.fileId, plan.title, plan.year, plan.rating, plan.genre, plan.description,
                                    plan.imagePath, plan.withImage, answers)
    ensures |plan.log| <= |events| && events[..|plan.log|] == plan.log
    ensures outcome == Published || outcome.PublishFailed? || outcome == Stalled
    ensures outcome == Stalled ==> used == |answers|
    ensures outcome.PublishFailed? ==> EndsWith(events, [Reply(ChannelError(outcome.error))])
    ensures outcome == Published ==>
      plan.description.Some?
      && EndsWith(events, [Send(Video(plan.fileId, VideoCaption(plan.title, plan.year, plan.rating, plan.genre, plan.description.value)), Sent),
                           Reply(PublishedNotice(plan.title, plan.year))])
  {
    var success := VideoPosted(plan.fileId, plan.title, plan.year, plan.rating, plan.genre, plan.description);
    PostingRunPosted(plan.fileId, plan.title, plan.year, plan.rating, plan.genre, plan.description,
                     plan.imagePath, plan.withImage, answers);
    PostedAfterLog(plan.log, plan.run, answers, success);
    if outcome == Published {
      PostingDecides(plan.fileId, plan.title, plan.year, plan.rating, plan.genre, plan.description,
                     plan.imagePath, plan.withImage, answers);
    }
  }

  /** A log followed by a posting run ends as the run does. */
  lemma PostedAfterLog(log: seq<Event>, run: PostRun, answers: seq<SendOutcome>, success: seq<Event>)
    requires Posted(run.events, answers, run.used, run.outcome, success)
    ensures var events := log + run.events;
      events[..|log|] == log
      && (run.outcome == Published ==> EndsWith(events, success))
      && (run.outcome.PublishFailed? ==> EndsWith(events, [Reply(ChannelError(run.outcome.error))]))
  {
    assert (log + run.events)[..|log|] == log;
    EndsWithAfter(log, run.events, success);
    if run.outcome.PublishFailed? {
      EndsWithAfter(log, run.events, [Reply(ChannelError(run.outcome.error))]);
    }
  }

  /** Posting on its own carries out a posting plan with an empty log. */
  lemma PostedRealizes(plan: Plan, answers: seq<SendOutcome>, outcome: Outcome, events: seq<Event>, used: nat)
    requires plan.Post? && plan.log == []
    requires Posted(events, answers, used, outcome,
                    VideoPosted(plan.fileId, plan.title, plan.year, plan.rating, plan.genre, plan.description))
    requires PostRun(outcome, events, used) == plan.run
    ensures Realizes(plan, answers, outcome, events, used)
  {
    assert [] + events == events;
  }

  /** A silent log that ends the handler carries out the plan that halts with it. */
  lemma HaltRealized(outcome: Outcome, log: seq<Event>, answers: seq<SendOutcome>)
    requires Silent(log)
    ensures outcome != Published ==> Realizes(Halt(outcome, log), answers, outcome, log, 0)
  {
    SilentViews(log);
    UnannouncedIsAnnouncedLast(log);
  }

  /** Putting a silent prefix before a run and before its plan's log keeps the run carrying out
      the plan. */
  lemma RealizesAfter(prefix: seq<Event>, plan: Plan, answers: seq<SendOutcome>, outcome: Outcome, events: seq<Event>, used: nat)
    requires Silent(prefix) && Realizes(plan, answers, outcome, events, used)
    ensures Realizes(plan.(log := prefix + plan.log), answers, outcome, prefix + events, used)
  {
    SilentViews(prefix);
    assert answers[..0] == [] && answers[0..] == answers;
    ConsumedAppend(prefix, events, answers, 0, used);
    AnnouncedAfter(prefix, events, outcome == Published);
    match plan
    case Halt(_, _) =>
    case Post(log, _, _, _, _, _, _, _, _, run) =>
      assert prefix + (log + run.events) == (prefix + log) + run.events;
      LookupsAppend(prefix, events);
      LookupsAppend(prefix, log);
  }

  /** Lines 77-173 of `video_entry`: read the record's fields, apply the completeness gate,
      generate the poster and publish. */
  method Check(movie: TmdbService.Movie, fileId: string, env: Env, answers: seq<SendOutcome>)
      returns (outcome: Outcome, events: seq<Event>, used: nat)
    ensures Realizes(Vet(movie, fileId, env, answers), answers, outcome, events, used)
  {
    if movie.releaseDate.None? || movie.voteAverage.None? || movie.genreIds.None? {
      HaltRealized(Crashed, [], answers);
      return Crashed, [], 0;
    }
    var year := Take(movie.releaseDate.value, 4);
    var rating := movie.voteAverage.value;
    var genre := TmdbService.GetGenres(movie.genreIds.value);
    if !Truthy(movie.posterPath) || year == [] {
      events := [Reply(MissingPosterOrYear(Shown(movie.title)))];
      assert Quiet(events[0]);
      HaltRealized(Incomplete, events, answers);
      return Incomplete, events, 0;
    }
    var posterUrl := TmdbService.PosterUrl(movie.posterPath);
    var generating := [Reply(GeneratingPoster)];
    var poster := env.render(posterUrl.value, movie.title, movie.overview);
    if poster.RenderRaised? {
      events := generating + [Reply(PosterError)];
      assert Quiet(events[0]) && Quiet(events[1]);
      HaltRealized(RenderFailed, events, answers);
      return RenderFailed, events, 0;
    }
    var posting;
    outcome, posting, used := Publish(fileId, Shown(movie.title), year, rating, genre, movie.overview,
                                      poster.path, env.onDisk, answers);
    PublishRealizesVet(movie, fileId, env, answers, poster.path, outcome, posting, used);
    events := generating + posting;
  }

  /** A record that passed the gate and whose poster was rendered: the "generating" reply
      followed by the posting run carries out the gate's plan. */
  lemma PublishRealizesVet(movie: TmdbService.Movie, fileId: string, env: Env, answers: seq<SendOutcome>,
                           path: string, outcome: Outcome, posting: seq<Event>, used: nat)
    requires movie.releaseDate.Some? && movie.voteAverage.Some? && movie.genreIds.Some?
    requires Truthy(movie.posterPath) && Take(movie.releaseDate.value, 4) != []
    requires env.render(TmdbService.PosterUrl(movie.posterPath).value, movie.title, movie.overview) == Rendered(path)
    requires var year, genre := Take(movie.releaseDate.value, 4), TmdbService.GetGenres(movie.genreIds.value);
      Posted(posting, answers, used, outcome,
             VideoPosted(fileId, Shown(movie.title), year, movie.voteAverage.value, genre, movie.overview))
      && PostRun(outcome, posting, used)
         == PostingRun(fileId, Shown(movie.title), year, movie.voteAverage.value, genre, movie.overview,
                       path, path != [] && env.onDisk(path), answers)
    ensures Realizes(Vet(movie, fileId, env, answers), answers, outcome, [Reply(GeneratingPoster)] + posting, used)
  {
    var year, genre := Take(movie.releaseDate.value, 4), TmdbService.GetGenres(movie.genreIds.value);
    var withImage := path != [] && env.onDisk(path);
    PostedAfterGenerating(fileId, Shown(movie.title), year, movie.voteAverage.value, genre, movie.overview, path, withImage,
                          PostingRun(fileId, Shown(movie.title), year, movie.voteAverage.value, genre, movie.overview, path, withImage, answers),
                          answers, outcome, posting, used,
                          VideoPosted(fileId, Shown(movie.title), year, movie.voteAverage.value, genre, movie.overview));
    VetPosts(movie, fileId, env, answers, path);
  }

  /** The "generating" reply followed by a posting run carries out the plan that posts. */
  lemma PostedAfterGenerating(fileId: string, title: string, year: string, rating: string, genre: string,
                              description: Option<string>, path: string, withImage: bool, run: PostRun,
                              answers: seq<SendOutcome>, outcome: Outcome, posting: seq<Event>, used: nat,
                              success: seq<Event>)
    requires Posted(posting, answers, used, outcome, success)
    requires PostRun(outcome, posting, used) == run
    ensures Realizes(Post([Reply(GeneratingPoster)], fileId, title, year, rating, genre, description, path, withImage, run),
                     answers, outcome, [Reply(GeneratingPoster)] + posting, used)
  {
    var generating := [Reply(GeneratingPoster)];
    assert Silent(generating);
    SilentViews(generating);
    assert answers[..0] == [] && answers[0..] == answers;
    ConsumedAppend(generating, posting, answers, 0, used);
    AnnouncedAfter(generating, posting, outcome == Published);
    LookupsAppend(generating, posting);
  }

  /** The gate's plan for a record that passed it and whose poster was rendered. */
  lemma VetPosts(movie: TmdbService.Movie, fileId: string, env: Env, answers: seq<SendOutcome>, path: string)
    requires movie.releaseDate.Some? && movie.voteAverage.Some? && movie.genreIds.Some?
    requires Truthy(movie.posterPath) && Take(movie.releaseDate.value, 4) != []
    requires env.render(TmdbService.PosterUrl(movie.posterPath).value, movie.title, movie.overview) == Rendered(path)
    ensures var year, genre := Take(movie.releaseDate.value, 4), TmdbService.GetGenres(movie.genreIds.value);
      var withImage := path != [] && env.onDisk(path);
      Vet(movie, fileId, env, answers)
      == Post([Reply(GeneratingPoster)], fileId, Shown(movie.title), year, movie.voteAverage.value, genre, movie.overview,
              path, withImage,
              PostingRun(fileId, Shown(movie.title), year, movie.voteAverage.value, genre, movie.overview, path, withImage, answers))
  {
  }

  /** Lines 44-173 of `video_entry`, from the parse result on: the error reply when nothing
      was parsed, the searches, the reply when nothing was found, and the rest. */
  method Proceed(parsed: Option<Candidate>, fileId: string, env: Env, answers: seq<SendOutcome>)
      returns (outcome: Outcome, events: seq<Event>, used: nat)
    ensures Realizes(Examine(parsed, fileId, env, answers), answers, outcome, events, used)
  {
    if parsed.None? {
      events := [Reply(Processing), Reply(CannotParse)];
      assert Quiet(events[0]) && Quiet(events[1]);
      HaltRealized(ParseFailed, events, answers);
      return ParseFailed, events, 0;
    }
    var title, year := parsed.value.title, parsed.value.year;
    events := [Reply(Processing), Reply(Analyzing(title, if Truthy(year) then year.value else "?"))];
    var found, searches := LookUp(title, year, env);
    events := events + searches;
    OpeningIsSilent(parsed.value, env);
    if found.None? {
      SilentAppend(events, [Reply(NothingFound(title))]);
      events := events + [Reply(NothingFound(title))];
      HaltRealized(NotFound, events, answers);
      return NotFound, events, 0;
    }
    var rest;
    outcome, rest, used := Check(found.value, fileId, env, answers);
    RealizesAfter(events, Vet(found.value, fileId, env, answers), answers, outcome, rest, used);
    events := events + rest;
  }

  /** `video_entry`: ignore a message without media; otherwise parse the file name (or the
      default one) and go on. */
  method VideoEntry(media: Media, env: Env, answers: seq<SendOutcome>)
      returns (outcome: Outcome, events: seq<Event>, used: nat)
    ensures Realizes(Prepare(media, env, answers), answers, outcome, events, used)
  {
    if media.NoMedia? {
      HaltRealized(Ignored, [], answers);
      return Ignored, [], 0;
    }
    var fileName := FileName(media);
    var parsed := FilenameParser.ParseFilename(fileName, env.guessit);
    outcome, events, used := Proceed(parsed, media.fileId, env, answers);
  }

  // ---- What the handler promises ----

  /** A message without media is ignored, and only such a message; when the file name cannot
      be parsed the handler answers with the opening and the error reply and nothing else, so
      it neither searches nor sends. */
  lemma StopsBeforeSearching(media: Media, env: Env, answers: seq<SendOutcome>)
    ensures Prepare(media, env, answers) == Halt(Ignored, []) <==> media.NoMedia?
    ensures media.Media? ==>
      (Prepare(media, env, answers).Halt? && Prepare(media, env, answers).outcome == ParseFailed
       <==> FilenameParser.ParseFilename(FileName(media), env.guessit).None?)
    ensures media.Media? && FilenameParser.ParseFilename(FileName(media), env.guessit).None? ==>
      Prepare(media, env, answers) == Halt(ParseFailed, [Reply(Processing), Reply(CannotParse)])
  {
    if media.Media? {
      ParseFailureOnly(FilenameParser.ParseFilename(FileName(media), env.guessit), media.fileId, env, answers);
    }
  }

  lemma ParseFailureOnly(parsed: Option<Candidate>, fileId: string, env: Env, answers: seq<SendOutcome>)
    ensures Examine(parsed, fileId, env, answers) != Halt(Ignored, [])
    ensures Examine(parsed, fileId, env, answers).Halt? && Examine(parsed, fileId, env, answers).outcome == ParseFailed <==> parsed.None?
  {
  }

  /** The log has no search when none of its events is one. */
  lemma {:induction false} NoLookups(log: seq<Event>)
    requires forall k :: 0 <= k < |log| ==> !log[k].Lookup?
    ensures Lookups(log) == []
  {
    if log != [] {
      NoLookups(log[1..]);
    }
  }

  /** A log of searches is its own search view. */
  lemma {:induction false} OnlyLookups(log: seq<Event>)
    requires forall k :: 0 <= k < |log| ==> log[k].Lookup?
    ensures Lookups(log) == log
  {
    if log != [] {
      OnlyLookups(log[1..]);
      assert log == [log[0]] + log[1..];
    }
  }

  lemma OpeningLookups(c: Candidate, env: Env)
    ensures Lookups(Opening(c, env)) == Searches(c.title, c.year, env)
  {
    var replies := [Reply(Processing), Reply(Analyzing(c.title, if Truthy(c.year) then c.year.value else "?"))];
    var searches := Searches(c.title, c.year, env);
    NoLookups(replies);
    OnlyLookups(searches);
    LookupsAppend(replies, searches);
  }

  /** The searches a parsed title leads to are those of `Searches`, whatever happens next. */
  lemma ExamineSearches(c: Candidate, fileId: string, env: Env, answers: seq<SendOutcome>)
    ensures Lookups(Examine(Some(c), fileId, env, answers).log) == Searches(c.title, c.year, env)
  {
    OpeningLookups(c, env);
    match Found(c.title, c.year, env)
    case None =>
      var tail := [Reply(NothingFound(c.title))];
      NoLookups(tail);
      LookupsAppend(Opening(c, env), tail);
    case Some(movie) =>
      var tail := Vet(movie, fileId, env, answers).log;
      NoLookups(tail);
      LookupsAppend(Opening(c, env), tail);
  }

  /** Once the file name is parsed, the handler searches exactly as `Searches` says (the
      search without the year only after the one with it found nothing), and nowhere else. */
  lemma SearchesAfterParsing(media: Media, env: Env, answers: seq<SendOutcome>,
                             outcome: Outcome, events: seq<Event>, used: nat)
    requires Realizes(Prepare(media, env, answers), answers, outcome, events, used)
    requires media.Media? && FilenameParser.ParseFilename(FileName(media), env.guessit).Some?
    ensures var c := FilenameParser.ParseFilename(FileName(media), env.guessit).value;
      Lookups(events) == Searches(c.title, c.year, env)
  {
    var c := FilenameParser.ParseFilename(FileName(media), env.guessit).value;
    ExamineSearches(c, media.fileId, env, answers);
  }

  /** The checks that let a record through to the posts: every field the handler reads is
      there, the poster path is non-empty, the year is the non-empty first (at most four)
      characters of the release date, and the poster was generated. */
  lemma VetPasses(movie: TmdbService.Movie, fileId: string, env: Env, answers: seq<SendOutcome>)
    requires Vet(movie, fileId, env, answers).Post?
    ensures var plan := Vet(movie, fileId, env, answers);
      movie.releaseDate.Some? && movie.voteAverage.Some? && movie.genreIds.Some?
      && Truthy(movie.posterPath)
      && plan.year != [] && |plan.year| <= 4 && plan.year == movie.releaseDate.value[..|plan.year|]
      && plan.rating == movie.voteAverage.value
      && plan.genre == TmdbService.GetGenres(movie.genreIds.value)
      && plan.title == Shown(movie.title) && plan.description == movie.overview && plan.fileId == fileId
      && env.render(TmdbService.PosterUrl(movie.posterPath).value, movie.title, movie.overview) == Rendered(plan.imagePath)
      && plan.withImage == (plan.imagePath != [] && env.onDisk(plan.imagePath))
      && plan.run == PostingRun(plan.fileId, plan.title, plan.year, plan.rating, plan.genre, plan.description,
                                plan.imagePath, plan.withImage, answers)
  {
  }

  /** The handler goes on to post only for a parsed file name, a record found by its searches,
      and a record that passes the checks; whenever it halts, it sent nothing to the channel
      and slept no time. */
  lemma PostsOnlyCompleteRecords(media: Media, env: Env, answers: seq<SendOutcome>,
                                 outcome: Outcome, events: seq<Event>, used: nat)
    requires Realizes(Prepare(media, env, answers), answers, outcome, events, used)
    ensures Prepare(media, env, answers).Halt? ==> Answers(events) == [] && Slept(events) == 0 && used == 0
    ensures Answers(events) != [] ==>
      media.Media?
      && var parsed := FilenameParser.ParseFilename(FileName(media), env.guessit);
      parsed.Some?
      && var found := Found(parsed.value.title, parsed.value.year, env);
      found.Some? && Vet(found.value, media.fileId, env, answers).Post?
  {
    PrepareIsSilent(media, env, answers);
    if Prepare(media, env, answers).Halt? {
      SilentViews(events);
    }
  }

  /** The run a posting plan carries is the posting run of the plan's record on the answers. */
  lemma PlannedRun(media: Media, env: Env, answers: seq<SendOutcome>)
    requires Prepare(media, env, answers).Post?
    ensures var plan := Prepare(media, env, answers);
      plan.run == PostingRun(plan.fileId, plan.title, plan.year, plan.rating, plan.genre, plan.description,
                             plan.imagePath, plan.withImage, answers)
  {
    var c := FilenameParser.ParseFilename(FileName(media), env.guessit).value;
    var movie := Found(c.title, c.year, env).value;
    VetPasses(movie, media.fileId, env, answers);
  }

  /** The channel's answers decide how a run ends: the handler announces success only with a
      synopsis and right after the last answer it took accepted the video, which it sent under
      the record's caption; a channel error is the last thing it reports; and it stalls only
      once every answer is taken. */
  lemma AnswersDecide(media: Media, env: Env, answers: seq<SendOutcome>,
                      outcome: Outcome, events: seq<Event>, used: nat)
    requires Realizes(Prepare(media, env, answers), answers, outcome, events, used)
    ensures outcome == Published ==>
      var plan := Prepare(media, env, answers);
      plan.Post? && plan.description.Some? && used > 0 && answers[used - 1] == Sent
      && EndsWith(events, [Send(Video(plan.fileId, VideoCaption(plan.title, plan.year, plan.rating, plan.genre, plan.description.value)), Sent),
                           Reply(PublishedNotice(plan.title, plan.year))])
    ensures outcome.PublishFailed? ==> EndsWith(events, [Reply(ChannelError(outcome.error))])
    ensures outcome == Stalled ==> used == |answers|
  {
    var plan := Prepare(media, env, answers);
    if plan.Post? {
      PlannedRun(media, env, answers);
    }
    PlanDecides(plan, answers, outcome, events, used);
  }

  /** For any plan whose posting run is its record's, the answers decide how the run ends. */
  lemma PlanDecides(plan: Plan, answers: seq<SendOutcome>, outcome: Outcome, events: seq<Event>, used: nat)
    requires Realizes(plan, answers, outcome, events, used)
    requires plan.Halt? ==> plan.outcome != Published && !plan.outcome.PublishFailed? && plan.outcome != Stalled
    requires plan.Post? ==>
      plan.run == PostingRun(plan.fileId, plan.title, plan.year, plan.rating, plan.genre, plan.description,
                             plan.imagePath, plan.withImage, answers)
    ensures outcome == Published ==>
      plan.Post? && plan.description.Some? && used > 0 && answers[used - 1] == Sent
      && EndsWith(events, [Send(Video(plan.fileId, VideoCaption(plan.title, plan.year, plan.rating, plan.genre, plan.description.value)), Sent),
                           Reply(PublishedNotice(plan.title, plan.year))])
    ensures outcome.PublishFailed? ==> EndsWith(events, [Reply(ChannelError(outcome.error))])
    ensures outcome == Stalled ==> used == |answers|
  {
    if plan.Post? {
      PostPlanCarried(plan, answers, outcome, events, used);
      PostingDecides(plan.fileId, plan.title, plan.year, plan.rating, plan.genre, plan.description,
                     plan.imagePath, plan.withImage, answers);
    }
  }
}
