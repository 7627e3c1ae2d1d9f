/**
  The shared theme and the inactivity watchdog (server.js, lines 24-44,
  58-80 and 87-90).

  One theme lives in the server: a flat map from variable names to values.
  Clients read it, overwrite one variable, or replace it wholesale; after
  three minutes without a change the watchdog replaces it with a preset picked
  at random from a fixed cycle. Values are opaque (the type parameter `V`),
  and so is the preset table: the model assumes nothing about which presets
  it holds or what they contain.

  Time is an abstract clock `now` in milliseconds handed to every operation.
  The one pending timer of the source is its expiry time `deadline`; clearing
  the old timer and arming a new one is a single assignment to it.
 */
module ThemeServer {
  import opened Wrappers
  import opened Routing
  import Origins

  /** A theme: variable name to value. */
  type Theme<V> = map<string, V>

  /** Idle time, in milliseconds, after which the watchdog fires: 3 minutes. */
  const INACTIVITY_TIMEOUT: nat := 3 * 60 * 1000

  /** The presets the watchdog picks from. */
  const PRESET_CYCLE: seq<string> := ["Warm", "Cold", "Joyful", "Carbon"]

  /** The payload of one `updateThemeVariable` message. */
  datatype Update<V> = Update(variable: string, value: V)

  /** Outbound messages: `themeUpdate`, `themeVariableUpdate` and `presets`. */
  datatype Message<V> =
    | ThemeUpdate(theme: Theme<V>)
    | ThemeVariableUpdate(variable: string, value: V)
    | PresetTable(presets: map<string, Theme<V>>)

  /** A message together with the connections it is addressed to. */
  datatype Emission<V> = Emission(audience: Audience, message: Message<V>)

  /** `theme[variable] = value` (line 65): the variable holds the new value and
      every other key keeps its presence and its value. */
  function SetVariable<V>(t: Theme<V>, variable: string, value: V): (r: Theme<V>)
    ensures variable in r && r[variable] == value
    ensures forall k :: k != variable ==> (k in r <==> k in t)
    ensures forall k :: k != variable && k in t ==> r[k] == t[k]
  {
    t[variable := value]
  }

  /** The theme after `updateThemeVariable` has been handled for each update
      of `us`, first to last. */
  function ApplyUpdates<V>(t: Theme<V>, us: seq<Update<V>>): Theme<V>
    decreases |us|
  {
    if us == [] then t else ApplyUpdates(SetVariable(t, us[0].variable, us[0].value), us[1..])
  }

  /** The value of the last update of `us` that writes `k`, if any. */
  function LastWrite<V>(us: seq<Update<V>>, k: string): Option<V> {
    if us == [] then None
    else if us[|us| - 1].variable == k then Some(us[|us| - 1].value)
    else LastWrite(us[..|us| - 1], k)
  }

  /** One more update is one more overwrite of the folded theme. */
  lemma {:induction false} ApplyUpdatesSnoc<V>(t: Theme<V>, us: seq<Update<V>>, u: Update<V>)
    ensures ApplyUpdates(t, us + [u]) == SetVariable(ApplyUpdates(t, us), u.variable, u.value)
    decreases |us|
  {
    if us != [] {
      assert (us + [u])[1..] == us[1..] + [u];
      ApplyUpdatesSnoc(SetVariable(t, us[0].variable, us[0].value), us[1..], u);
    }
  }

  /** Last write wins: after a sequence of single-variable updates a key is
      present exactly when some update wrote it or it was there before, and it
      holds the value of the last update that wrote it, else its old value. */
  lemma {:induction false} LastWriteWins<V>(t: Theme<V>, us: seq<Update<V>>, k: string)
    ensures k in ApplyUpdates(t, us) <==> LastWrite(us, k).Some? || k in t
    ensures LastWrite(us, k).Some? ==> ApplyUpdates(t, us)[k] == LastWrite(us, k).value
    ensures LastWrite(us, k).None? && k in t ==> ApplyUpdates(t, us)[k] == t[k]
  {
    if us != [] {
      var init, u := us[..|us| - 1], us[|us| - 1];
      assert us == init + [u];
      ApplyUpdatesSnoc(t, init, u);
      LastWriteWins(t, init, k);
    }
  }

  /** The server's state: the preset table, the live theme and the expiry time
      of the pending inactivity timer. */
  class Server<V> {
    /** `presets` from presets.js: read-only, so no theme operation can change
        it; every theme taken from it is a copy by value. */
    const presets: map<string, Theme<V>>
    var theme: Theme<V>
    var deadline: nat

    /** Module load and the `listen` callback (lines 24 and 89): the theme is a
        copy of the Default preset (empty when there is none) and the first
        timer is armed. */
    constructor (presets: map<string, Theme<V>>, now: nat)
      ensures this.presets == presets
      ensures "Default" in presets ==> theme == presets["Default"]
      ensures "Default" !in presets ==> theme == map[]
      ensures deadline == now + INACTIVITY_TIMEOUT
    {
      this.presets := presets;
      theme := if "Default" in presets then presets["Default"] else map[];
      deadline := now + INACTIVITY_TIMEOUT;
    }

    /** The watchdog may fire: the pending timer has expired. */
    predicate Due(now: nat)
      reads this
    {
      deadline <= now
    }

    /** `resetInactivityTimer` (lines 41-44): the previous timer is cancelled
        and the only pending one now expires a full timeout from `now`; the
        theme is untouched. */
    method ResetInactivityTimer(now: nat)
      modifies this`deadline
      ensures deadline == now + INACTIVITY_TIMEOUT
      ensures !Due(now)
    {
      deadline := now + INACTIVITY_TIMEOUT;
    }

    /** `getInitialTheme` (lines 59-61): the current theme, to the requester
        only; nothing changes. */
    method GetInitialTheme(requester: ConnId) returns (e: Emission<V>)
      ensures e.audience == ToRequester(requester)
      ensures e.message == ThemeUpdate(theme)
    {
      e := Emission(ToRequester(requester), ThemeUpdate(theme));
    }

    /** `updateThemeVariable` (lines 64-68). A missing or null payload makes
        the destructuring of line 64 throw before any change; `None` marks
        that throw, and the result `None` says nothing was changed or sent
        before it.
        Otherwise one variable is overwritten and nothing else in the theme
        changes; the update goes to every other connection; the watchdog
        restarts. */
    method UpdateThemeVariable(sender: ConnId, payload: Option<Update<V>>, now: nat)
      returns (e: Option<Emission<V>>)
      modifies this
      ensures payload.None? ==> theme == old(theme) && deadline == old(deadline) && e == None
      ensures payload.Some? ==> theme == SetVariable(old(theme), payload.value.variable, payload.value.value)
      ensures payload.Some? ==>
        e == Some(Emission(AllExcept(sender), ThemeVariableUpdate(payload.value.variable, payload.value.value)))
      ensures payload.Some? ==> deadline == now + INACTIVITY_TIMEOUT
    {
      match payload
      case None =>
        e := None;
      case Some(Update(variable, value)) =>
        theme := theme[variable := value];
        e := Some(Emission(AllExcept(sender), ThemeVariableUpdate(variable, value)));
        ResetInactivityTimer(now);
    }

    /** `updateFullTheme` (lines 71-75): the theme becomes exactly the new one,
        keys it lacks are gone; it goes to every connection, the sender
        included; the watchdog restarts. */
    method UpdateFullTheme(newTheme: Theme<V>, now: nat) returns (e: Emission<V>)
      modifies this
      ensures theme == newTheme
      ensures e == Emission(Everyone, ThemeUpdate(newTheme))
      ensures deadline == now + INACTIVITY_TIMEOUT
    {
      theme := newTheme;
      e := Emission(Everyone, ThemeUpdate(theme));
      ResetInactivityTimer(now);
    }

    /** `getPresets` (lines 78-80): the preset table, to the requester only;
        nothing changes. */
    method GetPresets(requester: ConnId) returns (e: Emission<V>)
      ensures e.audience == ToRequester(requester)
      ensures e.message == PresetTable(presets)
    {
      e := Emission(ToRequester(requester), PresetTable(presets));
    }

    /** `applyRandomPreset` (lines 30-39), run when the timer expires: some
        name of the cycle is picked; when the table has that preset the theme
        becomes a copy of it and goes to every connection, otherwise nothing
        changes and nothing is sent; either way the watchdog restarts. */
    method ApplyRandomPreset(now: nat) returns (key: string, e: Option<Emission<V>>)
      requires Due(now)
      modifies this
      ensures key in PRESET_CYCLE
      ensures key in presets ==> theme == presets[key]
      ensures key in presets ==> e == Some(Emission(Everyone, ThemeUpdate(presets[key])))
      ensures key !in presets ==> theme == old(theme) && e == None
      ensures deadline == now + INACTIVITY_TIMEOUT
    {
      var i :| 0 <= i < |PRESET_CYCLE|;
      key := PRESET_CYCLE[i];
      if key in presets {
        theme := presets[key];
        e := Some(Emission(Everyone, ThemeUpdate(theme)));
      } else {
        e := None;
      }
      ResetInactivityTimer(now);
    }
  }

  /** `updateFullTheme` followed by `getInitialTheme` on any connection
      answers exactly the new theme, whatever the state before. */
  method FullUpdateThenInitial<V>(s: Server<V>, requester: ConnId, t: Theme<V>, now: nat)
    returns (e: Emission<V>)
    modifies s
    ensures e == Emission(ToRequester(requester), ThemeUpdate(t))
  {
    var old_theme := s.theme;
    var _ := s.UpdateFullTheme(t, now);
    assert forall k :: k in old_theme && k !in t ==> k !in s.theme;
    e := s.GetInitialTheme(requester);
  }

  /** Handling `updateThemeVariable` for each update of `us` in turn, the i-th
      at time `times[i]`, leaves the last-write-wins fold of `us` onto the
      theme before, and the watchdog due a full timeout after the last one. */
  method ReplayVariableUpdates<V>(s: Server<V>, sender: ConnId, us: seq<Update<V>>, times: seq<nat>)
    requires |times| == |us|
    modifies s
    ensures s.theme == ApplyUpdates(old(s.theme), us)
    ensures us != [] ==> s.deadline == times[|us| - 1] + INACTIVITY_TIMEOUT
    ensures us == [] ==> s.deadline == old(s.deadline)
  {
    for i := 0 to |us|
      invariant s.theme == ApplyUpdates(old(s.theme), us[..i])
      invariant i > 0 ==> s.deadline == times[i - 1] + INACTIVITY_TIMEOUT
      invariant i == 0 ==> s.deadline == old(s.deadline)
    {
      ApplyUpdatesSnoc(old(s.theme), us[..i], us[i]);
      assert us[..i + 1] == us[..i] + [us[i]];
      var _ := s.UpdateThemeVariable(sender, Some(us[i]), times[i]);
    }
    assert us[..|us|] == us;
  }

  /** Two clients "a" and "b" and no configured origins: the origin list
      falls back to the localhost defaults; a variable update from "a" reaches
      only "b"; a full update reaches both, and "b" then reads the new theme;
      the watchdog is not due until a full timeout after the last change. */
  method TwoClientScenario(presets: map<string, Theme<string>>)
    returns (origins: seq<string>,
             variableRecipients: set<ConnId>, variableMessage: Message<string>,
             fullRecipients: set<ConnId>, fullMessage: Message<string>,
             initial: Message<string>, dueAt: nat)
    ensures origins == Origins.DEFAULT_ORIGINS
    ensures variableRecipients == {"b"}
    ensures variableMessage == ThemeVariableUpdate("bg", "#fff")
    ensures fullRecipients == {"a", "b"}
    ensures fullMessage == ThemeUpdate(map["bg" := "#000"])
    ensures initial == ThemeUpdate(map["bg" := "#000"])
    ensures dueAt == 2000 + INACTIVITY_TIMEOUT
  {
    origins := Origins.AllowedOrigins(None);
    Origins.ParseOriginsEmpty([]);

    var conns: set<ConnId> := {"a", "b"};
    var s := new Server(presets, 0);
    var sent := s.UpdateThemeVariable("a", Some(Update("bg", "#fff")), 1000);
    variableRecipients := Recipients(conns, sent.value.audience);
    variableMessage := sent.value.message;
    var e := s.UpdateFullTheme(map["bg" := "#000"], 2000);
    fullRecipients := Recipients(conns, e.audience);
    fullMessage := e.message;
    var answer := s.GetInitialTheme("b");
    initial := answer.message;
    assert !s.Due(2000 + INACTIVITY_TIMEOUT - 1) && s.Due(2000 + INACTIVITY_TIMEOUT);
    dueAt := s.deadline;
  }
}
