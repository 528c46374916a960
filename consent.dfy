/** Cookie consent (js/main.js:1210-1264): the visitor's choice is written to
    a browser cookie, to localStorage (with the time it was made) and to
    sessionStorage, and read back from the first of the three that has it.
    A localStorage choice older than 90 days is forgotten. The browser's
    stores are maps from key to value; the clock is a parameter. */
module Consent {
  import opened Wrappers
  import opened Text

  const ConsentKey := "cookieConsent"
  const DateKey := "cookieConsentDate"
  const Accepted := "accepted"
  const Denied := "denied"

  /** 90 days in milliseconds: `daysSinceConsent > 90` with
      `daysSinceConsent = elapsed / (1000 * 60 * 60 * 24)` holds exactly when
      the elapsed time exceeds this. */
  const ConsentLifetimeMs := 90 * 24 * 60 * 60 * 1000

  /** The cookie jar (cookie name to value), sessionStorage and localStorage. */
  datatype Stores = Stores(cookies: map<string, string>, session: map<string, string>,
                           local: map<string, string>)

  /** `getItem(key)` read for its truthiness: a missing item and an empty
      one are both falsy, so both are "". */
  function Item(m: map<string, string>, key: string): string {
    if key in m then m[key] else ""
  }

  /** The stored date is past the lifetime. `parseInt` of a date that does
      not start with a number is NaN, and NaN is never greater than 90, so
      such a date never expires. */
  predicate Expired(date: string, now: int)
    ensures Expired(date, now) ==> ParseInt(date).Some?
    ensures ParseInt(date).Some? ==> (Expired(date, now) <==> ParseInt(date).value + ConsentLifetimeMs < now)
  {
    var t := ParseInt(date);
    t.Some? && now - t.value > ConsentLifetimeMs
  }

  /** What getCookieConsent returns (`None` for `null`). */
  function ReadConsent(st: Stores, now: int): (r: Option<string>)
    ensures ConsentKey in st.cookies ==> r == Some(BeforeFirst(st.cookies[ConsentKey], '='))
    ensures ConsentKey !in st.cookies && Item(st.session, ConsentKey) != "" ==>
      r == Some(Item(st.session, ConsentKey))
    ensures ConsentKey !in st.cookies && r.Some? ==> r.value != ""
    ensures r.Some? && ConsentKey !in st.cookies && Item(st.session, ConsentKey) == "" ==>
      r.value == Item(st.local, ConsentKey) && Item(st.local, DateKey) != ""
      && !Expired(Item(st.local, DateKey), now)
    ensures (&& ConsentKey !in st.cookies && Item(st.session, ConsentKey) == ""
             && Item(st.local, ConsentKey) != "" && Item(st.local, DateKey) != ""
             && !Expired(Item(st.local, DateKey), now)) ==>
      r == Some(Item(st.local, ConsentKey))
  {
    if ConsentKey in st.cookies then
      // `row.split('=')[1]` of the row "cookieConsent=<value>"
      Some(BeforeFirst(st.cookies[ConsentKey], '='))
    else if Item(st.session, ConsentKey) != "" then
      Some(Item(st.session, ConsentKey))
    else
      var consent := Item(st.local, ConsentKey);
      var date := Item(st.local, DateKey);
      if consent == "" || date == "" then None
      else if Expired(date, now) then None
      else Some(consent)
  }

  /** The stores after getCookieConsent: an expired local choice is removed
      together with the cookie, a valid one is copied into sessionStorage. */
  function AfterRead(st: Stores, now: int): (r: Stores)
    ensures r.cookies == st.cookies || r.cookies == st.cookies - {ConsentKey}
    ensures ReadConsent(st, now).Some? && ConsentKey !in st.cookies ==>
      Item(r.session, ConsentKey) == ReadConsent(st, now).value
    // an answer from the cookie or the session, or an incomplete local pair:
    // nothing is touched
    ensures (|| ConsentKey in st.cookies || Item(st.session, ConsentKey) != ""
             || Item(st.local, ConsentKey) == "" || Item(st.local, DateKey) == "") ==> r == st
    // only an expired local choice removes anything, and then both local keys
    ensures r.cookies != st.cookies || r.local != st.local ==>
      && Expired(Item(st.local, DateKey), now)
      && ConsentKey !in r.local && DateKey !in r.local && r.session == st.session
    ensures (&& ConsentKey !in st.cookies && Item(st.session, ConsentKey) == ""
             && Item(st.local, ConsentKey) != "" && Item(st.local, DateKey) != ""
             && Expired(Item(st.local, DateKey), now)) ==>
      && ConsentKey !in r.local && DateKey !in r.local
      && r.local == st.local - {ConsentKey, DateKey} && r.session == st.session
    // a valid local choice is copied into the session, and nothing else changes
    ensures (&& ConsentKey !in st.cookies && Item(st.session, ConsentKey) == ""
             && Item(st.local, ConsentKey) != "" && Item(st.local, DateKey) != ""
             && !Expired(Item(st.local, DateKey), now)) ==>
      r == st.(session := st.session[ConsentKey := Item(st.local, ConsentKey)])
    // whatever the case, only the session's copy of the choice can change
    ensures r.cookies == st.cookies && r.local == st.local ==>
      r.session == st.session || r.session == st.session[ConsentKey := Item(st.local, ConsentKey)]
  {
    if ConsentKey in st.cookies || Item(st.session, ConsentKey) != "" then st
    else
      var consent := Item(st.local, ConsentKey);
      var date := Item(st.local, DateKey);
      if consent == "" || date == "" then st
      else if Expired(date, now) then
        st.(cookies := st.cookies - {ConsentKey}, local := st.local - {ConsentKey, DateKey})
      else st.(session := st.session[ConsentKey := consent])
  }

  function ConsentValue(accepted: bool): string {
    if accepted then Accepted else Denied
  }

  /** The stores after setCookieConsent at time `now`; `localWritable` is
      false when localStorage throws, and then it is left as it was. */
  function AfterWrite(st: Stores, accepted: bool, now: nat, localWritable: bool): (r: Stores)
    ensures r.cookies == st.cookies[ConsentKey := ConsentValue(accepted)]
    ensures r.session == st.session[ConsentKey := ConsentValue(accepted)][DateKey := Decimal(now)]
    ensures localWritable ==>
      r.local == st.local[ConsentKey := ConsentValue(accepted)][DateKey := Decimal(now)]
    ensures !localWritable ==> r.local == st.local
  {
    var v := ConsentValue(accepted);
    var d := Decimal(now);
    Stores(st.cookies[ConsentKey := v],
           st.session[ConsentKey := v][DateKey := d],
           if localWritable then st.local[ConsentKey := v][DateKey := d] else st.local)
  }

  /** `consent === 'accepted' || consent === null` (js/main.js:1366-1367). */
  predicate CanUseStorage(consent: Option<string>)
    ensures consent.None? ==> CanUseStorage(consent)
    ensures consent.Some? && consent.value != Accepted ==> !CanUseStorage(consent)
  {
    consent == None || consent == Some(Accepted)
  }

  /** The browser's three stores, changed in place by the two handlers. */
  class ConsentStorage {
    var cookies: map<string, string>
    var session: map<string, string>
    var local: map<string, string>
    /** Whether localStorage accepts writes. */
    const localWritable: bool

    function State(): Stores
      reads this
    {
      Stores(cookies, session, local)
    }

    constructor (initial: Stores, writable: bool)
      ensures State() == initial && localWritable == writable
    {
      cookies := initial.cookies;
      session := initial.session;
      local := initial.local;
      localWritable := writable;
    }

    /** getCookieConsent at time `now`. */
    method GetCookieConsent(now: int) returns (consent: Option<string>)
      modifies this
      ensures consent == ReadConsent(old(State()), now)
      ensures State() == AfterRead(old(State()), now)
    {
      if ConsentKey in cookies {
        return Some(BeforeFirst(cookies[ConsentKey], '='));
      }
      var sessionConsent := Item(session, ConsentKey);
      if sessionConsent != "" {
        return Some(sessionConsent);
      }
      var stored := Item(local, ConsentKey);
      var date := Item(local, DateKey);
      if stored == "" || date == "" {
        return None;
      }
      var t := ParseInt(date);
      if t.Some? && now - t.value > ConsentLifetimeMs {
        local := local - {ConsentKey};
        local := local - {DateKey};
        cookies := cookies - {ConsentKey};
        return None;
      }
      session := session[ConsentKey := stored];
      return Some(stored);
    }

    /** setCookieConsent(accepted) at time `now`. */
    method SetCookieConsent(accepted: bool, now: nat)
      modifies this
      ensures State() == AfterWrite(old(State()), accepted, now, localWritable)
    {
      var value := if accepted then Accepted else Denied;
      var dateValue := Decimal(now);
      cookies := cookies[ConsentKey := value];
      if localWritable {
        local := local[ConsentKey := value];
        local := local[DateKey := dateValue];
      }
      session := session[ConsentKey := value];
      session := session[DateKey := dateValue];
    }
  }

  // -------------------------------------------------------------------------
  // Properties

  /** Right after a choice, reading gives the choice back, from the cookie,
      at any later time. */
  lemma WriteThenRead(st: Stores, accepted: bool, now: nat, localWritable: bool, later: int)
    ensures ReadConsent(AfterWrite(st, accepted, now, localWritable), later)
         == Some(ConsentValue(accepted))
  {
    var v := ConsentValue(accepted);
    assert '=' !in v;
  }

  /** Once the cookie is gone, the same browsing session still finds the
      choice in sessionStorage, whether or not localStorage was writable. */
  lemma SessionOutlivesCookie(st: Stores, accepted: bool, now: nat, localWritable: bool, later: int)
    ensures var w := AfterWrite(st, accepted, now, localWritable);
      ReadConsent(w.(cookies := w.cookies - {ConsentKey}), later) == Some(ConsentValue(accepted))
  {
  }

  /** In a new browsing session without the cookie, a choice written to
      localStorage at time `t` is found again exactly while at most 90 days
      have passed, and dropped from both local keys after that. */
  lemma NewSessionReadsLocal(st: Stores, accepted: bool, t: nat, now: int)
    ensures var w := AfterWrite(st, accepted, t, true);
      var newSession := Stores(map[], map[], w.local);
      && (ReadConsent(newSession, now) == if now - t > ConsentLifetimeMs then None
                                     else Some(ConsentValue(accepted)))
      && (now - t > ConsentLifetimeMs ==>
            var after := AfterRead(newSession, now).local;
            ConsentKey !in after && DateKey !in after)
  {
    ParseDecimal(t);
    var w := AfterWrite(st, accepted, t, true);
    assert Item(w.local, ConsentKey) == ConsentValue(accepted) != "";
    assert Item(w.local, DateKey) == Decimal(t) != "";
  }

  /** Reading twice gives the same answer, whenever the second read happens:
      a valid local choice is copied into sessionStorage, and an expired one
      is removed everywhere. */
  lemma ReadIsStable(st: Stores, now: int, later: int)
    ensures ReadConsent(AfterRead(st, now), later) == ReadConsent(st, now)
  {
    var r := AfterRead(st, now);
    if ConsentKey !in st.cookies && Item(st.session, ConsentKey) == "" {
      var consent := Item(st.local, ConsentKey);
      var date := Item(st.local, DateKey);
      if consent != "" && date != "" && Expired(date, now) {
        assert Item(r.local, ConsentKey) == "";
      }
    }
  }

  /** Storage may be used after accepting and not after declining. */
  lemma StorageFollowsChoice(st: Stores, accepted: bool, now: nat, localWritable: bool, later: int)
    ensures CanUseStorage(ReadConsent(AfterWrite(st, accepted, now, localWritable), later)) == accepted
  {
    WriteThenRead(st, accepted, now, localWritable, later);
  }

  /** A `cookieConsent` cookie with an empty value is returned as "", which
      is neither null nor "accepted": it blocks storage although no choice
      was made, and hides whatever sessionStorage or localStorage hold. */
  lemma EmptyCookieBlocksStorage(st: Stores, now: int)
    requires ConsentKey in st.cookies && st.cookies[ConsentKey] == ""
    ensures ReadConsent(st, now) == Some("")
    ensures !CanUseStorage(ReadConsent(st, now))
  {
  }
}
