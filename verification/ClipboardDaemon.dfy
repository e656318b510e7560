/** The clipboard daemon: a seen set that expires as a whole, and ingests over timed runs. */
module ClipboardDaemon {
  import opened Text

  const SEEN_TTL := 7 * 86400

  datatype Limits = Limits(min: int, max: int)

  /** One poll: the clipboard, the digest of its stripped text, the times of the three Redis
      calls, and whether the server answered that it took the text. */
  datatype Poll = Poll(text: string, hash: string, check: int, add: int, refresh: int, accepted: bool) {
    predicate Usable(limits: Limits) {
      text != "" && limits.min <= |Strip(text)| <= limits.max
    }
  }

  // ---- the seen set ----

  /** The Redis set of digests, and when the whole key runs out. */
  datatype Store = Store(members: set<string>, expires: Option<int>) {
    /** What is left of it at time `now`. */
    function At(now: int): Store {
      if expires.Some? && now >= expires.value then Store({}, None) else this
    }
  }

  class SeenSet {
    var members: set<string>
    var expires: Option<int>

    constructor (s: Store)
      ensures State() == s
    {
      members, expires := s.members, s.expires;
    }

    ghost function State(): Store
      reads this
    {
      Store(members, expires)
    }

    /** Redis drops a key whose time has run out before any command sees it. */
    method RunOut(now: int)
      modifies this
      ensures State() == old(State()).At(now)
    {
      if expires.Some? && now >= expires.value {
        members, expires := {}, None;
      }
    }

    method IsSeen(hash: string, now: int) returns (seen: bool)
      ensures seen <==> hash in State().At(now).members
    {
      seen := hash in members && !(expires.Some? && now >= expires.value);
    }

    method MarkSeen(hash: string, add: int, refresh: int)
      modifies this
      ensures State() == Marked(old(State()), hash, add, refresh)
    {
      RunOut(add);
      members := members + {hash};
      RunOut(refresh);
      if members != {} {
        expires := Some(refresh + SEEN_TTL);
      }
    }

    method PollOnce(p: Poll, limits: Limits) returns (ingested: bool)
      modifies this
      ensures ingested == Ingests(old(State()), p, limits)
      ensures State() == After(old(State()), p, limits)
    {
      if p.text == "" {
        return false;
      }
      var text := Strip(p.text);
      if |text| < limits.min || |text| > limits.max {
        return false;
      }
      var seen := IsSeen(p.hash, p.check);
      if seen {
        return false;
      }
      if p.accepted {
        MarkSeen(p.hash, p.add, p.refresh);
        return true;
      }
      return false;
    }

    /** The polls until the shutdown signal. */
    method Run(polls: seq<Poll>, limits: Limits) returns (outcomes: seq<bool>)
      modifies this
      ensures State() == StateAt(old(State()), polls, |polls|, limits)
      ensures |outcomes| == |polls|
      ensures forall n :: 0 <= n < |polls| ==> outcomes[n] == Succeeds(old(State()), polls, n, limits)
    {
      outcomes := [];
      for n := 0 to |polls|
        invariant State() == StateAt(old(State()), polls, n, limits)
        invariant |outcomes| == n
        invariant forall m :: 0 <= m < n ==> outcomes[m] == Succeeds(old(State()), polls, m, limits)
      {
        var ingested := PollOnce(polls[n], limits);
        outcomes := outcomes + [ingested];
      }
    }
  }

  /** SADD at one time, then EXPIRE at a later one, which does nothing to a key that is gone. */
  function Marked(s: Store, hash: string, add: int, refresh: int): Store {
    var added := s.At(add).(members := s.At(add).members + {hash}).At(refresh);
    if added.members == {} then added else added.(expires := Some(refresh + SEEN_TTL))
  }

  predicate Ingests(s: Store, p: Poll, limits: Limits) {
    p.Usable(limits) && p.hash !in s.At(p.check).members && p.accepted
  }

  function After(s: Store, p: Poll, limits: Limits): Store {
    if Ingests(s, p, limits) then Marked(s, p.hash, p.add, p.refresh) else s
  }

  // ---- runs ----

  function StateAt(start: Store, polls: seq<Poll>, n: nat, limits: Limits): Store
    requires n <= |polls|
  {
    if n == 0 then start else After(StateAt(start, polls, n - 1, limits), polls[n - 1], limits)
  }

  predicate Succeeds(start: Store, polls: seq<Poll>, n: nat, limits: Limits)
    requires n < |polls|
  {
    Ingests(StateAt(start, polls, n, limits), polls[n], limits)
  }

  // ---- what counts as an ingest ----

  /** A poll is an ingest exactly when the server took the text, whose stripped length fits, and the
      digest was not in the set, or the set had run out. */
  lemma SuccessExactly(start: Store, polls: seq<Poll>, n: nat, limits: Limits)
    requires n < |polls|
    ensures var p, s := polls[n], StateAt(start, polls, n, limits);
            Succeeds(start, polls, n, limits) <==>
              && p.accepted && p.text != "" && limits.min <= |Strip(p.text)| <= limits.max
              && (p.hash !in s.members || (s.expires.Some? && s.expires.value <= p.check))
  {
  }

  /** A POST that fails, and any poll that is no ingest, leaves the set as it is. */
  lemma RefusedNeverMarks(start: Store, polls: seq<Poll>, n: nat, limits: Limits)
    requires n < |polls| && (!polls[n].accepted || !Succeeds(start, polls, n, limits))
    ensures !Succeeds(start, polls, n, limits)
    ensures StateAt(start, polls, n + 1, limits) == StateAt(start, polls, n, limits)
  {
  }

  /** Every digest in the set was there at the start or is that of an accepted ingest since. */
  lemma {:induction false} OnlyIngested(start: Store, polls: seq<Poll>, n: nat, limits: Limits, hash: string)
    requires n <= |polls| && hash in StateAt(start, polls, n, limits).members
    ensures hash in start.members
         || exists k :: 0 <= k < n && polls[k].accepted && polls[k].hash == hash && Succeeds(start, polls, k, limits)
  {
    if n > 0 {
      if hash in StateAt(start, polls, n - 1, limits).members {
        OnlyIngested(start, polls, n - 1, limits, hash);
      } else {
        RefusedOrMarked(start, polls, n - 1, limits, hash);
      }
    }
  }

  lemma RefusedOrMarked(start: Store, polls: seq<Poll>, n: nat, limits: Limits, hash: string)
    requires n < |polls| && hash in StateAt(start, polls, n + 1, limits).members
    requires hash !in StateAt(start, polls, n, limits).members
    ensures polls[n].accepted && polls[n].hash == hash && Succeeds(start, polls, n, limits)
  {
  }

  // ---- time ----

  /** The calls of a run happen one after another. */
  ghost predicate Timed(polls: seq<Poll>) {
    && (forall n :: 0 <= n < |polls| ==> polls[n].check <= polls[n].add <= polls[n].refresh)
    && (forall m, n :: 0 <= m < n < |polls| ==> polls[m].refresh <= polls[n].check)
  }

  /** The key runs out between the two calls of mark `n`. */
  predicate Torn(start: Store, polls: seq<Poll>, n: nat, limits: Limits)
    requires n < |polls|
  {
    var s := StateAt(start, polls, n, limits);
    Succeeds(start, polls, n, limits) && s.expires.Some? && polls[n].add < s.expires.value <= polls[n].refresh
  }

  /** Nothing is ingested in polls `m + 1` to `n - 1`. */
  ghost predicate Quiet(start: Store, polls: seq<Poll>, m: nat, n: nat, limits: Limits)
    requires n <= |polls|
  {
    forall k :: m < k < n ==> !Succeeds(start, polls, k, limits)
  }

  /** Between two successive ingests from `i` to `j` lie seven days. */
  ghost predicate Gap(start: Store, polls: seq<Poll>, i: nat, j: nat, limits: Limits)
    requires j < |polls|
  {
    exists m, n :: i <= m < n <= j && Week(start, polls, m, n, limits)
  }

  ghost predicate Week(start: Store, polls: seq<Poll>, m: nat, n: nat, limits: Limits)
    requires m < n < |polls|
  {
    && Succeeds(start, polls, m, limits) && Succeeds(start, polls, n, limits) && Quiet(start, polls, m, n, limits)
    && polls[n].add >= polls[m].refresh + SEEN_TTL
  }

  /** The week is one of seven days, in seconds. */
  lemma WeekInSeconds(start: Store, polls: seq<Poll>, m: nat, n: nat, limits: Limits)
    requires m < n < |polls| && Week(start, polls, m, n, limits)
    ensures polls[n].add - polls[m].refresh >= 604800
  {
  }

  /** Before poll `k` the set has the digest of poll `i`, and runs out a week after mark `last`. */
  predicate Holds(start: Store, polls: seq<Poll>, i: nat, last: nat, k: nat, limits: Limits)
    requires i < |polls| && last < |polls| && k <= |polls|
  {
    var s := StateAt(start, polls, k, limits);
    polls[i].hash in s.members && s.expires == Some(polls[last].refresh + SEEN_TTL)
  }

  /** A mark that is not torn leaves its digest in the set for seven days. */
  lemma MarkStays(start: Store, polls: seq<Poll>, n: nat, limits: Limits)
    requires Timed(polls) && n < |polls| && Succeeds(start, polls, n, limits) && !Torn(start, polls, n, limits)
    ensures Holds(start, polls, n, n, n + 1, limits)
  {
  }

  /** A mark within the week keeps what the set has, and begins the week again. */
  lemma MarkKeeps(start: Store, polls: seq<Poll>, i: nat, last: nat, n: nat, limits: Limits)
    requires Timed(polls) && i < |polls| && last < |polls| && n < |polls|
    requires Holds(start, polls, i, last, n, limits) && polls[n].add < polls[last].refresh + SEEN_TTL
    requires Succeeds(start, polls, n, limits) && !Torn(start, polls, n, limits)
    ensures Holds(start, polls, i, n, n + 1, limits)
  {
  }

  /** Poll `last` is the last before poll `k` that ingested. */
  ghost predicate Latest(start: Store, polls: seq<Poll>, last: nat, k: nat, limits: Limits)
    requires last < k <= |polls|
  {
    Succeeds(start, polls, last, limits) && Quiet(start, polls, last, k, limits)
  }

  lemma LatestStep(start: Store, polls: seq<Poll>, last: nat, n: nat, limits: Limits)
    requires last <= n < |polls|
    ensures Succeeds(start, polls, n, limits) ==> Latest(start, polls, n, n + 1, limits)
    ensures last < n && Latest(start, polls, last, n, limits) && !Succeeds(start, polls, n, limits) ==>
              Latest(start, polls, last, n + 1, limits)
  {
  }

  /** What the daemon remembers of ingest `i` before poll `k`: unless a week without an ingest came
      between, the digest is still in the set, which runs out a week after the last ingest. */
  lemma {:induction false} Remembered(start: Store, polls: seq<Poll>, i: nat, k: nat, limits: Limits)
    returns (last: nat)
    requires Timed(polls) && i < k <= |polls| && Succeeds(start, polls, i, limits)
    requires Whole(start, polls, i, k, limits)
    ensures i <= last < k && Latest(start, polls, last, k, limits)
    ensures Gap(start, polls, i, last, limits) || Holds(start, polls, i, last, k, limits)
    decreases k
  {
    var n := k - 1;
    if n == i {
      MarkStays(start, polls, i, limits);
      LatestStep(start, polls, i, i, limits);
      last := i;
    } else {
      last := Remembered(start, polls, i, n, limits);
      LatestStep(start, polls, last, n, limits);
      if Succeeds(start, polls, n, limits) {
        RememberedMark(start, polls, i, last, n, limits);
        last := n;
      } else {
        IdleKeeps(start, polls, i, last, n, limits);
      }
    }
  }

  /** A poll that ingests nothing changes nothing. */
  lemma IdleKeeps(start: Store, polls: seq<Poll>, i: nat, last: nat, n: nat, limits: Limits)
    requires i <= last < n < |polls| && !Succeeds(start, polls, n, limits)
    ensures Holds(start, polls, i, last, n + 1, limits) == Holds(start, polls, i, last, n, limits)
  {
  }

  lemma RememberedMark(start: Store, polls: seq<Poll>, i: nat, last: nat, n: nat, limits: Limits)
    requires Timed(polls) && i <= last < n < |polls| && Latest(start, polls, last, n, limits)
    requires Succeeds(start, polls, n, limits)
    requires !Torn(start, polls, n, limits)
    requires Gap(start, polls, i, last, limits) || Holds(start, polls, i, last, n, limits)
    ensures Gap(start, polls, i, n, limits) || Holds(start, polls, i, n, n + 1, limits)
  {
    if polls[n].add >= polls[last].refresh + SEEN_TTL {
      assert Week(start, polls, last, n, limits);
    } else if Gap(start, polls, i, last, limits) {
      GapGrows(start, polls, i, last, n, limits);
    } else {
      MarkKeeps(start, polls, i, last, n, limits);
    }
  }

  /** No mark from `i` to `j - 1` is torn. */
  ghost predicate Whole(start: Store, polls: seq<Poll>, i: nat, j: nat, limits: Limits)
    requires j <= |polls|
  {
    forall n :: i <= n < j ==> !Torn(start, polls, n, limits)
  }

  lemma GapGrows(start: Store, polls: seq<Poll>, i: nat, j: nat, later: nat, limits: Limits)
    requires j <= later < |polls| && Gap(start, polls, i, j, limits)
    ensures Gap(start, polls, i, later, limits)
  {
    var m, n :| i <= m < n <= j && Week(start, polls, m, n, limits);
    assert i <= m < n <= later && Week(start, polls, m, n, limits);
  }

  /** Two ingests of the same content are separated by a week without an ingest, unless a mark in
      between is torn. */
  lemma Separated(start: Store, polls: seq<Poll>, i: nat, j: nat, limits: Limits)
    requires Timed(polls) && i < j < |polls| && polls[i].hash == polls[j].hash
    requires Succeeds(start, polls, i, limits) && Succeeds(start, polls, j, limits)
    requires Whole(start, polls, i, j, limits)
    ensures Gap(start, polls, i, j, limits)
  {
    var last := Remembered(start, polls, i, j, limits);
    if Gap(start, polls, i, last, limits) {
      GapGrows(start, polls, i, last, j, limits);
    } else {
      assert Week(start, polls, last, j, limits);
    }
  }

  lemma {:induction false} QuietState(start: Store, polls: seq<Poll>, n: nat, m: nat, limits: Limits)
    requires n < m <= |polls| && Quiet(start, polls, n, m, limits)
    ensures StateAt(start, polls, m, limits) == StateAt(start, polls, n + 1, limits)
  {
    if m > n + 1 {
      QuietState(start, polls, n, m - 1, limits);
      assert !Succeeds(start, polls, m - 1, limits);
    }
  }

  // ---- exactly when content is ingested again ----

  /** After a torn mark nothing is left. */
  lemma TornEmpties(start: Store, polls: seq<Poll>, n: nat, limits: Limits)
    requires Timed(polls) && n < |polls| && Torn(start, polls, n, limits)
    ensures StateAt(start, polls, n + 1, limits).members == {}
  {
  }

  /** A mark after the key has run out leaves its own digest at most. */
  lemma LateMark(start: Store, polls: seq<Poll>, n: nat, hash: string, limits: Limits)
    requires Timed(polls) && n < |polls| && Succeeds(start, polls, n, limits) && polls[n].hash != hash
    requires hash !in StateAt(start, polls, n, limits).At(polls[n].add).members
    ensures hash !in StateAt(start, polls, n + 1, limits).members
  {
  }

  /** A digest that is not in the set stays out until a poll with that digest is ingested. */
  lemma {:induction false} StaysOut(start: Store, polls: seq<Poll>, n: nat, m: nat, hash: string, limits: Limits)
    requires Timed(polls) && n <= m <= |polls| && hash !in StateAt(start, polls, n, limits).members
    requires NotIngested(start, polls, n, m, hash, limits)
    ensures hash !in StateAt(start, polls, m, limits).members
  {
    if n < m {
      StaysOut(start, polls, n, m - 1, hash, limits);
      if Succeeds(start, polls, m - 1, limits) {
        LateMark(start, polls, m - 1, hash, limits);
      }
    }
  }

  /** No poll from `n` to `m - 1` ingests content with this digest. */
  ghost predicate NotIngested(start: Store, polls: seq<Poll>, n: nat, m: nat, hash: string, limits: Limits)
    requires m <= |polls|
  {
    forall k :: n <= k < m && Succeeds(start, polls, k, limits) ==> polls[k].hash != hash
  }

  /** Content that came in at poll `n` is out again after a torn mark, unless ingested anew. */
  lemma OutAfterTear(start: Store, polls: seq<Poll>, n: nat, m: nat, hash: string, limits: Limits)
    requires Timed(polls) && n < m <= |polls| && NotIngested(start, polls, n + 1, m, hash, limits)
    requires !Whole(start, polls, n, m, limits)
    ensures hash !in StateAt(start, polls, m, limits).members
  {
    hide StateAt, Succeeds, Timed;
    var k :| n <= k < m && Torn(start, polls, k, limits);
    TornEmpties(start, polls, k, limits);
    StaysOut(start, polls, k + 1, m, hash, limits);
  }

  /** A week without an ingest before mark `j` leaves nothing older in the set. */
  lemma OutAfterWeek(start: Store, polls: seq<Poll>, i: nat, j: nat, hash: string, limits: Limits)
    requires Timed(polls) && i < j < |polls| && Week(start, polls, i, j, limits) && polls[j].hash != hash
    ensures hash !in StateAt(start, polls, j + 1, limits).members
  {
    QuietState(start, polls, i, j, limits);
    if Torn(start, polls, i, limits) {
      TornEmpties(start, polls, i, limits);
    } else {
      MarkStays(start, polls, i, limits);
    }
    LateMark(start, polls, j, hash, limits);
  }

  lemma OutAfterGap(start: Store, polls: seq<Poll>, n: nat, last: nat, m: nat, hash: string, limits: Limits)
    requires Timed(polls) && n <= last < m <= |polls| && NotIngested(start, polls, n + 1, m, hash, limits)
    requires Gap(start, polls, n, last, limits)
    ensures hash !in StateAt(start, polls, m, limits).members
  {
    hide StateAt, Succeeds, Timed;
    var i, j :| n <= i < j <= last && Week(start, polls, i, j, limits);
    OutAfterWeek(start, polls, i, j, hash, limits);
    StaysOut(start, polls, j + 1, m, hash, limits);
  }

  /** When a week has gone by since the last ingest, the set has run out. */
  lemma OutWhenLate(start: Store, polls: seq<Poll>, last: nat, m: nat, limits: Limits)
    requires Timed(polls) && last < m < |polls| && Latest(start, polls, last, m, limits)
    requires polls[m].check >= polls[last].refresh + SEEN_TTL
    ensures StateAt(start, polls, m, limits).At(polls[m].check).members == {}
  {
    QuietState(start, polls, last, m, limits);
    if Torn(start, polls, last, limits) {
      TornEmpties(start, polls, last, limits);
    } else {
      MarkStays(start, polls, last, limits);
    }
  }

  /** Only one poll is the last that ingested. */
  lemma LatestUnique(start: Store, polls: seq<Poll>, last: nat, other: nat, m: nat, limits: Limits)
    requires last < m <= |polls| && other < m
    requires Latest(start, polls, last, m, limits) && Latest(start, polls, other, m, limits)
    ensures last == other
  {
  }

  /** Content ingested at poll `n`, and not since, is ingested again at a later poll that offers it,
      with whatever white space around it, exactly when a mark from `n` on was torn, or a week
      without an ingest came between two of the ingests, or a week has gone by since the last one. */
  lemma RepeatedExactly(start: Store, polls: seq<Poll>, n: nat, last: nat, m: nat, limits: Limits)
    requires Timed(polls) && n <= last < m < |polls| && Succeeds(start, polls, n, limits)
    requires Latest(start, polls, last, m, limits) && NotIngested(start, polls, n + 1, m, polls[n].hash, limits)
    requires polls[m].hash == polls[n].hash && polls[m].Usable(limits) && polls[m].accepted
    ensures Succeeds(start, polls, m, limits)
       <==> || !Whole(start, polls, n, m, limits)
            || Gap(start, polls, n, last, limits)
            || polls[m].check >= polls[last].refresh + SEEN_TTL
  {
    var hash := polls[n].hash;
    if !Whole(start, polls, n, m, limits) {
      OutAfterTear(start, polls, n, m, hash, limits);
    } else if Gap(start, polls, n, last, limits) {
      OutAfterGap(start, polls, n, last, m, hash, limits);
    } else if polls[m].check >= polls[last].refresh + SEEN_TTL {
      OutWhenLate(start, polls, last, m, limits);
    } else {
      var latest := Remembered(start, polls, n, m, limits);
      LatestUnique(start, polls, last, latest, m, limits);
    }
  }

  /** A run with a torn mark: the set made by the first ingest runs out between the two calls of
      the second; a third poll ingests other content, and the fourth the second's content again,
      two seconds after that mark. */
  lemma TornExample()
    ensures var polls := [Poll("a", "A", 0, 0, 0, true),
                          Poll("b", "B", SEEN_TTL - 2, SEEN_TTL - 1, SEEN_TTL + 1, true),
                          Poll("c", "C", SEEN_TTL + 2, SEEN_TTL + 2, SEEN_TTL + 2, true),
                          Poll("b", "B", SEEN_TTL + 3, SEEN_TTL + 3, SEEN_TTL + 3, true)];
            var empty, limits := Store({}, None), Limits(0, 10);
            && Timed(polls) && Succeeds(empty, polls, 1, limits) && Succeeds(empty, polls, 3, limits)
            && !Gap(empty, polls, 1, 3, limits)
  {
    var polls := [Poll("a", "A", 0, 0, 0, true),
                  Poll("b", "B", SEEN_TTL - 2, SEEN_TTL - 1, SEEN_TTL + 1, true),
                  Poll("c", "C", SEEN_TTL + 2, SEEN_TTL + 2, SEEN_TTL + 2, true),
                  Poll("b", "B", SEEN_TTL + 3, SEEN_TTL + 3, SEEN_TTL + 3, true)];
    var empty, limits := Store({}, None), Limits(0, 10);
    assert Strip("a") == "a" && Strip("b") == "b" && Strip("c") == "c";
    assert StateAt(empty, polls, 0, limits) == empty;
    assert StateAt(empty, polls, 1, limits) == Store({"A"}, Some(SEEN_TTL));
    assert StateAt(empty, polls, 2, limits) == Store({}, None);
    assert StateAt(empty, polls, 3, limits) == Store({"C"}, Some(SEEN_TTL + 2 + SEEN_TTL));
  }
}
