/** The preferences upsert and its defaults. */
module NotificationPreferences {
  import opened Wrappers

  datatype Preferences = Preferences(
    email: bool, inApp: bool, slack: bool, digest: string,
    quietStart: Option<string>, quietEnd: Option<string>, timezone: Option<string>)

  /** A PUT body; None is an absent or null field. */
  datatype Patch = Patch(
    email: Option<bool>, inApp: Option<bool>, slack: Option<bool>, digest: Option<string>,
    quietStart: Option<string>, quietEnd: Option<string>, timezone: Option<string>)

  /** What the default GET returns while no row exists. */
  datatype Shown = Shown(email: bool, inApp: bool, slack: bool, digest: string)

  const DEFAULT_SHOWN: Shown := Shown(true, true, false, "immediate")
  const EMPTY_PATCH: Patch := Patch(None, None, None, None, None, None, None)

  function Coalesce<T>(first: Option<T>, second: Option<T>): Option<T> {
    if first.Some? then first else second
  }

  /** INSERT ... ON CONFLICT DO UPDATE. */
  function Upsert(row: Option<Preferences>, p: Patch): Preferences {
    match row
    case None =>
      Preferences(p.email.GetOr(true), p.inApp.GetOr(true), p.slack.GetOr(false), p.digest.GetOr("immediate"),
                  p.quietStart, p.quietEnd, p.timezone)
    case Some(stored) =>
      Preferences(p.email.GetOr(stored.email), p.inApp.GetOr(stored.inApp), p.slack.GetOr(stored.slack),
                  p.digest.GetOr(stored.digest), Coalesce(p.quietStart, stored.quietStart),
                  Coalesce(p.quietEnd, stored.quietEnd), Coalesce(p.timezone, stored.timezone))
  }

  /** The formats accepted by time.Parse("15:04", _) and time.LoadLocation. */
  datatype Formats = Formats(clock: string -> bool, zone: string -> bool)

  predicate Accepted(f: Formats, p: Patch) {
    && (p.digest.Some? ==> p.digest.value in {"immediate", "hourly", "daily", "weekly"})
    && (p.quietStart.Some? ==> f.clock(p.quietStart.value))
    && (p.quietEnd.Some? ==> f.clock(p.quietEnd.value))
    && (p.timezone.Some? ==> f.zone(p.timezone.value))
  }

  function Put(f: Formats, row: Option<Preferences>, p: Patch): Option<Preferences> {
    if Accepted(f, p) then Some(Upsert(row, p)) else row
  }

  function PutAll(f: Formats, row: Option<Preferences>, patches: seq<Patch>): Option<Preferences> {
    if patches == [] then row else Put(f, PutAll(f, row, patches[..|patches| - 1]), patches[|patches| - 1])
  }

  /** The last value an accepted patch supplied for a field. */
  function Last<T>(f: Formats, patches: seq<Patch>, field: Patch -> Option<T>): Option<T> {
    if patches == [] then None
    else
      var p := patches[|patches| - 1];
      if Accepted(f, p) && field(p).Some? then field(p) else Last(f, patches[..|patches| - 1], field)
  }

  predicate AnyAccepted(f: Formats, patches: seq<Patch>) {
    exists k | 0 <= k < |patches| :: Accepted(f, patches[k])
  }

  /** After any sequence of PUTs each field holds the last value supplied for it by
      an accepted one, or else its default; there is a row once one was accepted. */
  lemma {:induction false} LastSuppliedWins(f: Formats, patches: seq<Patch>)
    ensures PutAll(f, None, patches) ==
            if !AnyAccepted(f, patches) then None
            else Some(Preferences(
              Last(f, patches, (p: Patch) => p.email).GetOr(true),
              Last(f, patches, (p: Patch) => p.inApp).GetOr(true),
              Last(f, patches, (p: Patch) => p.slack).GetOr(false),
              Last(f, patches, (p: Patch) => p.digest).GetOr("immediate"),
              Last(f, patches, (p: Patch) => p.quietStart),
              Last(f, patches, (p: Patch) => p.quietEnd),
              Last(f, patches, (p: Patch) => p.timezone)))
  {
    if patches != [] {
      var init, p := patches[..|patches| - 1], patches[|patches| - 1];
      LastSuppliedWins(f, init);
      assert AnyAccepted(f, patches) <==> AnyAccepted(f, init) || Accepted(f, p) by {
        assert patches == init + [p];
        if AnyAccepted(f, init) {
          var k :| 0 <= k < |init| && Accepted(f, init[k]);
          assert Accepted(f, patches[k]);
        }
      }
      if !AnyAccepted(f, init) {
        NothingSupplied(f, init, (p: Patch) => p.email);
        NothingSupplied(f, init, (p: Patch) => p.inApp);
        NothingSupplied(f, init, (p: Patch) => p.slack);
        NothingSupplied(f, init, (p: Patch) => p.digest);
        NothingSupplied(f, init, (p: Patch) => p.quietStart);
        NothingSupplied(f, init, (p: Patch) => p.quietEnd);
        NothingSupplied(f, init, (p: Patch) => p.timezone);
      }
    }
  }

  lemma {:induction false} NothingSupplied<T>(f: Formats, patches: seq<Patch>, field: Patch -> Option<T>)
    requires !AnyAccepted(f, patches)
    ensures Last(f, patches, field) == None
  {
    if patches != [] {
      NothingSupplied(f, patches[..|patches| - 1], field);
    }
  }

  /** Repeating a PUT changes no setting. */
  lemma RepeatedPutChangesNothing(f: Formats, row: Option<Preferences>, p: Patch)
    ensures Put(f, Put(f, row, p), p) == Put(f, row, p)
  {
  }

  /** The default GET shows what a PUT of only nulls would store. */
  lemma DefaultsAgree(f: Formats)
    ensures var stored := Put(f, None, EMPTY_PATCH);
            && stored.Some?
            && Shown(stored.value.email, stored.value.inApp, stored.value.slack, stored.value.digest) == DEFAULT_SHOWN
  {
  }

  /** Settings the endpoint may hold. */
  predicate Sound(f: Formats, row: Preferences) {
    && (row.digest == "immediate" || row.digest == "hourly" || row.digest == "daily" || row.digest == "weekly")
    && (row.quietStart == None || f.clock(row.quietStart.value))
    && (row.quietEnd == None || f.clock(row.quietEnd.value))
    && (row.timezone == None || f.zone(row.timezone.value))
  }

  lemma {:induction false} StoredIsSound(f: Formats, patches: seq<Patch>)
    ensures PutAll(f, None, patches).Some? ==> Sound(f, PutAll(f, None, patches).value)
  {
    if patches != [] {
      StoredIsSound(f, patches[..|patches| - 1]);
    }
  }

  function Whole(row: Preferences): Patch {
    Patch(Some(row.email), Some(row.inApp), Some(row.slack), Some(row.digest),
          row.quietStart, row.quietEnd, row.timezone)
  }

  ghost predicate Reachable(f: Formats, row: Preferences) {
    exists patches :: PutAll(f, None, patches) == Some(row)
  }

  /** Some PUTs lead to a row exactly if its digest, times and time zone are of the kinds
      the endpoint promises. */
  lemma ReachableExactly(f: Formats, row: Preferences)
    ensures Reachable(f, row) <==> Sound(f, row)
  {
    if Sound(f, row) {
      var patches := [Whole(row)];
      assert PutAll(f, None, patches[..0]) == None;
      assert PutAll(f, None, patches) == Put(f, None, patches[0]) == Some(row);
    } else if Reachable(f, row) {
      var patches :| PutAll(f, None, patches) == Some(row);
      StoredIsSound(f, patches);
    }
  }

  /** A PUT takes effect exactly if every setting it supplies would be accepted alone;
      otherwise it changes nothing. */
  lemma AcceptedFieldwise(f: Formats, row: Option<Preferences>, p: Patch)
    ensures Accepted(f, p) <==>
            && Accepted(f, EMPTY_PATCH.(digest := p.digest))
            && Accepted(f, EMPTY_PATCH.(quietStart := p.quietStart))
            && Accepted(f, EMPTY_PATCH.(quietEnd := p.quietEnd))
            && Accepted(f, EMPTY_PATCH.(timezone := p.timezone))
    ensures !Accepted(f, p) ==> Put(f, row, p) == row
  {
  }
}
