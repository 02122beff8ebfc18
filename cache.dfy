/** The Cache-Control tiers chosen from the age of returned data. Times are
    integer nanoseconds (Go's time.Time and time.Duration); `now` is an input. */
module CacheControl {

  const Second: int := 1_000_000_000
  const Week: int := 7 * 24 * 3600 * Second
  const ThreeHours: int := 3 * 3600 * Second
  const ThirtySeconds: int := 30 * Second

  datatype Directive = NoCache | MaxAge(seconds: nat)

  /** How long a client may reuse the response; no-cache is zero. */
  function Lifetime(d: Directive): nat {
    match d
    case NoCache => 0
    case MaxAge(s) => s
  }

  /** The tier of one task's creation time (get_task/task.go:105-113):
      `created.Add(d).Before(now)` is created + d < now and `After` is >. */
  function TaskDirective(created: int, now: int): (d: Directive)
    ensures d.MaxAge? ==> d.seconds in {86400, 3600, 30}
  {
    if created + Week < now then MaxAge(86400)
    else if created + ThreeHours < now then MaxAge(3600)
    else if created + ThirtySeconds > now then NoCache
    else MaxAge(30)
  }

  /** The tier of a page whose first and last tasks were created at `first`
      and `last` (listing/listing.go:211-222): a tier applies only when both
      ends satisfy it. */
  function RangeDirective(first: int, last: int, now: int): (d: Directive)
    ensures d.MaxAge? ==> d.seconds in {86400, 3600, 30}
  {
    if first + Week < now && last + Week < now then MaxAge(86400)
    else if first + ThreeHours < now && last + ThreeHours < now then MaxAge(3600)
    else if first + ThirtySeconds > now && last + ThirtySeconds > now then NoCache
    else MaxAge(30)
  }

  /** The tiers, older first: a week old gets a day, three hours old gets an
      hour, under thirty seconds old gets no-cache, anything else thirty seconds. */
  lemma TaskDirectiveTiers(created: int, now: int)
    ensures TaskDirective(created, now) == MaxAge(86400) <==> now - created > Week
    ensures TaskDirective(created, now) == MaxAge(3600) <==> ThreeHours < now - created <= Week
    ensures TaskDirective(created, now) == NoCache <==> now - created < ThirtySeconds
    ensures TaskDirective(created, now) == MaxAge(30) <==> ThirtySeconds <= now - created <= ThreeHours
  {
  }

  /** The page tiers in terms of its ends' ages: the younger end decides a day
      or an hour, the older end decides no-cache, and thirty seconds covers
      the rest. */
  lemma RangeDirectiveTiers(first: int, last: int, now: int)
    ensures var young := if first >= last then now - first else now - last;
            var elder := if first >= last then now - last else now - first;
            && (RangeDirective(first, last, now) == MaxAge(86400) <==> young > Week)
            && (RangeDirective(first, last, now) == MaxAge(3600) <==> ThreeHours < young <= Week)
            && (RangeDirective(first, last, now) == NoCache <==> elder < ThirtySeconds)
            && (RangeDirective(first, last, now) == MaxAge(30) <==> young <= ThreeHours && ThirtySeconds <= elder)
  {
  }

  /** An older task is never cached for less time than a newer one. */
  lemma TaskDirectiveMonotone(older: int, newer: int, now: int)
    requires older <= newer
    ensures Lifetime(TaskDirective(older, now)) >= Lifetime(TaskDirective(newer, now))
  {
  }

  /** A page whose ends share one creation time is cached like that one task. */
  lemma RangeOfOneTime(created: int, now: int)
    ensures RangeDirective(created, created, now) == TaskDirective(created, now)
  {
  }

  /** When both ends would get the same tier on their own, the page gets it too. */
  lemma RangeAgreesWithEnds(first: int, last: int, now: int)
    requires TaskDirective(first, now) == TaskDirective(last, now)
    ensures RangeDirective(first, last, now) == TaskDirective(first, now)
  {
  }

  /** A page is cached for a day only when both ends would be on their own,
      and its lifetime lies between the lifetimes its two ends would get. */
  lemma RangeNeedsBothEnds(first: int, last: int, now: int)
    ensures RangeDirective(first, last, now) == MaxAge(86400) <==>
              TaskDirective(first, now) == MaxAge(86400) && TaskDirective(last, now) == MaxAge(86400)
    ensures var f, l := Lifetime(TaskDirective(first, now)), Lifetime(TaskDirective(last, now));
            (if f <= l then f else l) <= Lifetime(RangeDirective(first, last, now)) <= (if f <= l then l else f)
  {
  }

  /** Ten days and ten seconds old: thirty seconds, never a day. */
  lemma MixedAgesExample(now: int)
    ensures RangeDirective(now - 10 * 24 * 3600 * Second, now - 10 * Second, now) == MaxAge(30)
  {
  }
}
