/** The check for updates: when the release source is asked, and what is remembered of it. */
module UpdateCheck {
  import opened Schema

  const UPDATE_CHECK_INTERVAL: Time := 86400
  const UPDATE_RETRY_INTERVAL: Time := 3600

  /** A stored setting: missing, not of its form, or a value. */
  datatype Stored<+T> = Missing | Garbled | Is(value: T)

  /** Versions in their order. */
  type Version = int

  datatype Settings = Settings(
    checkedAt: Stored<Time>, retryAt: Stored<Time>, latest: Stored<Version>)

  function ValueOf<T>(stored: Stored<T>): Option<T> {
    if stored.Is? then Some(stored.value) else None
  }

  predicate CacheIsFresh(settings: Settings, now: Time) {
    settings.checkedAt.Is? && now - settings.checkedAt.value < UPDATE_CHECK_INTERVAL
  }

  predicate RetryIsPending(settings: Settings, now: Time) {
    settings.retryAt.Is? && now < settings.retryAt.value
  }

  /** One ask of the release source: when it was decided on, when its answer was stored, and
      whether it was forced, answered and stored. */
  datatype Ask = Ask(decidedAt: Time, storedAt: Time, forced: bool, answer: Option<Version>, stored: bool)

  datatype Status = Status(latest: Option<Version>, available: bool, checkFailed: bool)

  // ── Spacing ─────────────────────────────────────────────────────────

  /** Whether an ask comes long enough after an earlier one: a day after an answer, an hour
      after none, if that was stored and this is not forced. */
  predicate IsSpaced(earlier: Ask, later: Ask) {
    earlier.stored && !later.forced ==>
      later.decidedAt >= earlier.storedAt
        + if earlier.answer.Some? then UPDATE_CHECK_INTERVAL else UPDATE_RETRY_INTERVAL
  }

  predicate IsKnown(ask: Ask) {
    ask.stored && ask.answer.Some?
  }

  /** What the settings still hold of an ask made. */
  predicate Holds(settings: Settings, ask: Ask) {
    ask.stored ==>
      if ask.answer.Some? then settings.checkedAt.Is? && ask.storedAt <= settings.checkedAt.value
      else settings.retryAt.Is? && ask.storedAt + UPDATE_RETRY_INTERVAL <= settings.retryAt.value
  }

  /** The version last answered and stored; the one known from before, without any. */
  function LastKnown(before: Option<Version>, asks: seq<Ask>): Option<Version> {
    if asks == [] then before
    else if IsKnown(asks[|asks| - 1]) then asks[|asks| - 1].answer
    else LastKnown(before, asks[..|asks| - 1])
  }

  /** It is the answer of the latest ask that was answered and stored: no failed ask, and none
      whose storing was refused, loses it. */
  lemma {:induction false} LastKnownIs(before: Option<Version>, asks: seq<Ask>)
    ensures (&& LastKnown(before, asks) == before && forall i | 0 <= i < |asks| :: !IsKnown(asks[i]))
         || exists i :: 0 <= i < |asks| && IsKnown(asks[i]) && LastKnown(before, asks) == asks[i].answer
                        && forall j | i < j < |asks| :: !IsKnown(asks[j])
  {
    if asks != [] {
      var n := |asks| - 1;
      if !IsKnown(asks[n]) {
        LastKnownIs(before, asks[..n]);
        if i :| 0 <= i < n && IsKnown(asks[..n][i]) && LastKnown(before, asks[..n]) == asks[..n][i].answer
                && forall j | i < j < n :: !IsKnown(asks[..n][j]) {
          assert IsKnown(asks[i]);
          assert forall j | i < j < n :: asks[j] == asks[..n][j];
        } else {
          assert forall j | 0 <= j < n :: asks[j] == asks[..n][j];
        }
      }
    }
  }

  /** The settings once an answer, or none, is stored at a time. */
  function Remembered(settings: Settings, answer: Option<Version>, now: Time): Settings {
    match answer
    case None => settings.(retryAt := Is(now + UPDATE_RETRY_INTERVAL))
    case Some(version) => settings.(checkedAt := Is(now), latest := Is(version))
  }

  class CheckForUpdatesUseCase {
    var settings: Settings
    ghost var asks: seq<Ask>
    ghost var lastNow: Time
    ghost var before: Option<Version>

    /** Every ask was spaced from those before it, and none is forgotten. */
    ghost predicate Valid()
      reads this
    {
      && (forall i, j | 0 <= i < j < |asks| :: IsSpaced(asks[i], asks[j]))
      && (forall i | 0 <= i < |asks| :: Holds(settings, asks[i]) && asks[i].storedAt <= lastNow)
      && ValueOf(settings.latest) == LastKnown(before, asks)
    }

    constructor (stored: Settings, ghost now: Time)
      ensures Valid() && asks == [] && settings == stored && lastNow == now
      ensures before == ValueOf(stored.latest)
    {
      settings, asks, lastNow, before := stored, [], now, ValueOf(stored.latest);
    }

    /** One check. The clock is read for each of the two conditions and for the storing, and
        does not go back; a long operation may refuse the storing. */
    method Execute(
      force: bool, current: Version, freshNow: Time, retryNow: Time, storedNow: Time,
      answer: Option<Version>, accepted: bool)
      returns (status: Status)
      requires Valid() && lastNow <= freshNow <= retryNow <= storedNow
      modifies this
      ensures Valid() && lastNow == storedNow && before == old(before)
      ensures var was := old(settings);
              var asked :=
                || force
                || (&& (was.checkedAt.Is? ==> freshNow >= was.checkedAt.value + 86400)
                    && (was.retryAt.Is? ==> retryNow >= was.retryAt.value));
              && asks == old(asks) + (if asked then [Ask(retryNow, storedNow, force, answer, accepted)] else [])
              && status.latest == (if asked && answer.Some? then answer else LastKnown(before, old(asks)))
              && status.checkFailed == (force && asked && answer.None?)
              && settings ==
                   if !asked || !accepted then was
                   else if answer.Some? then Settings(Is(storedNow), was.retryAt, Is(answer.value))
                   else Settings(was.checkedAt, Is(storedNow + 3600), was.latest)
      ensures status.available <==> status.latest.Some? && status.latest.value > current
    {
      var latest: Option<Version>;
      var fetchFailed := false;
      if !force && (CacheIsFresh(settings, freshNow) || RetryIsPending(settings, retryNow)) {
        latest := ValueOf(settings.latest);
      } else {
        fetchFailed := answer.None?;
        Remember(force, answer, freshNow, retryNow, storedNow, accepted);
        latest := if answer.Some? then answer else ValueOf(settings.latest);
      }
      lastNow := storedNow;
      status := Status(latest, latest.Some? && latest.value > current, force && fetchFailed);
    }

    /** Stores an answer, or when to try again; nothing if the storing is refused. */
    method Remember(
      ghost force: bool, answer: Option<Version>, ghost freshNow: Time, ghost retryNow: Time, now: Time,
      accepted: bool)
      requires Valid() && lastNow <= freshNow <= retryNow <= now
      requires force || !(CacheIsFresh(settings, freshNow) || RetryIsPending(settings, retryNow))
      modifies this
      ensures Valid() && lastNow == now && before == old(before)
      ensures asks == old(asks) + [Ask(retryNow, now, force, answer, accepted)]
      ensures settings == if accepted then Remembered(old(settings), answer, now) else old(settings)
    {
      if accepted {
        if answer.None? {
          settings := settings.(retryAt := Is(now + UPDATE_RETRY_INTERVAL));
        } else {
          settings := settings.(checkedAt := Is(now), latest := Is(answer.value));
        }
      }
      asks := asks + [Ask(retryNow, now, force, answer, accepted)];
      lastNow := now;
    }
  }
}
