# Theme server model

A model of a small realtime theme server. The server keeps one shared theme,
a flat map from style-variable names to values. Connected clients read it,
overwrite one variable, or replace it wholesale, and every change is pushed
to the other clients. After three minutes without a change, an inactivity
watchdog resets the theme to a preset picked at random from Warm, Cold,
Joyful and Carbon. Before any of this runs, the server builds the list of
origins its CORS layer accepts from the `ALLOWED_ORIGINS` setting.

The project has four modules:

- `Origins` (origins.dfy) builds the allowed-origin list. It models
  JavaScript's `split(',')`, `trim()` and `filter(Boolean)` as functions on
  strings. It also proves the split/join round trip, that entries keep their
  order, and exactly when the localhost fallback is taken. The fallback is a
  method that appends to the list, as the source's `push` does.
- `ThemeServer` (theme_server.dfy) holds the class `Server`. Its `theme`
  map field and its `deadline` field are changed by the handler methods. The
  watchdog's single pending timer is modelled as its expiry time compared
  with an abstract clock `now`. Cancelling the old timer and arming a new one
  is one assignment to `deadline`. The random pick is a nondeterministic
  choice of an index into `PRESET_CYCLE`. Last-write-wins for sequences of
  single-variable updates is proved about a fold over the updates.
- `Routing` (routing.dfy) names the three ways a message is addressed:
  requester only, everyone but the sender, and everyone. It gives the set of
  live connections each one reaches.
- `Wrappers` (wrappers.dfy) holds `Option`.

Theme values are a type parameter: the server never looks inside them. The
preset table is a constant field of the server, so no theme operation can
change it. Themes are Dafny maps, which are values. So every `{ ...x }` copy
of the source becomes a plain assignment, and no alias to a preset or to a
client's payload can arise.

The server ships presets named Default, Warm, Cold, Joyful and Carbon. The
code still handles a missing preset, so the model assumes nothing about the
table's keys:

- a missing Default gives an empty initial theme, because spreading
  `undefined` gives `{}`;
- a missing cycle preset makes the reset leave the theme unchanged and send
  nothing; the timer still restarts.

The code's `allowedOriginsEnv ? … : []` guard treats the empty value as a
separate case. `ParseOriginsIsClean` shows that the guard changes nothing.

## Model

| member | source | states |
|---|---|---|
| `Origins.TrimStartSpec` | server.js:14 | the result is a suffix of the input; everything dropped is whitespace; the result does not start with whitespace |
| `Origins.TrimEndSpec` | server.js:14 | the result is a prefix of the input; everything dropped is whitespace; the result does not end with whitespace |
| `Origins.Trim` | server.js:14 | `origin.trim()`: the result is trimmed, and it is empty exactly when the input is all whitespace |
| `Origins.TrimTrimmed` | server.js:14 | trimming an already trimmed string leaves it unchanged |
| `Origins.Split` | server.js:14 | `split(',')` gives at least one piece, and no piece contains a comma |
| `Origins.JoinSplit` | server.js:14 | joining the pieces of a split with commas gives back the original string |
| `Origins.SplitJoin` | server.js:14 | splitting the comma-join of comma-free pieces gives back exactly those pieces |
| `Origins.SplitNoComma` | server.js:14 | a string without commas splits into itself alone |
| `Origins.SplitAppend` | server.js:14 | the pieces of `a,b` are the pieces of `a` followed by the pieces of `b` |
| `Origins.CleanPiece` | server.js:14 | one piece is kept as its trimmed self when it is not all whitespace, and dropped exactly when it is |
| `Origins.CleanSingle` | server.js:14 | a one-piece sequence cleans to what is kept of that piece, which with `CleanAppend` fixes the result for any sequence of pieces |
| `Origins.Clean` | server.js:14 | `.map(trim).filter(Boolean)` keeps at most as many entries as there are pieces; every entry is non-empty and trimmed |
| `Origins.CleanAppend` | server.js:14 | trimming and filtering preserve order: the result for `p + q` is the result for `p` followed by the result for `q` |
| `Origins.EnvValue` | server.js:12 | `process.env.ALLOWED_ORIGINS \|\| ""`: an unset variable reads as the empty string, a set one as its value |
| `Origins.ParseOrigins` | server.js:12-14 | every parsed origin is non-empty and whitespace-trimmed |
| `Origins.ParseOriginsIsClean` | server.js:14 | the empty-value guard agrees with splitting, trimming and filtering the empty string |
| `Origins.ParseOriginsNoComma` | server.js:14 | a value without commas yields its trimmed self, or nothing when that is empty |
| `Origins.ParseOriginsAppend` | server.js:14 | the origins of `a,b` are those of `a` followed by those of `b`, so entries keep their left-to-right order |
| `Origins.CleanEmpty` | server.js:14 | trimming and filtering drop every piece exactly when every piece is all whitespace |
| `Origins.SplitAllBlank` | server.js:14 | every comma-separated piece of a value is all whitespace exactly when the value holds only commas and whitespace |
| `Origins.ParseOriginsEmpty` | server.js:12-17 | parsing yields no origins exactly when the value is unset, empty, or only commas and whitespace |
| `Origins.AllowedOrigins` | server.js:12-20 | the list is never empty; it is the three localhost origins 3000, 3001 and 3002, in that order, when parsing yields nothing, and the parsed list otherwise; every entry is non-empty and trimmed |
| `Routing.Recipients` | server.js:60-79 | a message only reaches live connections |
| `Routing.BroadcastSplitsAtSender` | server.js:66-73 | a broadcast to everyone reaches every live connection; a broadcast to the others never reaches the sender, and adding the sender's own copy gives exactly the live connections, so it reaches every other one |
| `ThemeServer.SetVariable` | server.js:65 | `theme[variable] = value` stores the value under the variable; every other key keeps its presence and its value |
| `ThemeServer.ApplyUpdatesSnoc` | server.js:65 | one more update overwrites one more variable of the folded theme |
| `ThemeServer.LastWriteWins` | server.js:64-68 | after a sequence of single-variable updates, a key is present exactly when some update wrote it or it was already there; it holds the last value written to it, or its old value |
| `ThemeServer.Server.constructor` | server.js:24-28 | the theme starts as a copy of the Default preset (empty when there is none); the preset table is the one given; the first timer expires one timeout after start (server.js:87-90) |
| `ThemeServer.Server.ResetInactivityTimer` | server.js:41-44 | the single pending timer is replaced: it now expires 180000 ms from now, and the watchdog is not due at `now`; the theme is untouched |
| `ThemeServer.Server.GetInitialTheme` | server.js:59-61 | the current theme is sent to the requester only, and nothing changes |
| `ThemeServer.Server.UpdateThemeVariable` | server.js:64-68 | a missing or null payload (`None`) throws before any change, so neither theme nor timer has changed and nothing was sent when it throws; otherwise the variable is overwritten and nothing else in the theme changes, the update goes to everyone but the sender, and the timer restarts at now + 180000 |
| `ThemeServer.Server.UpdateFullTheme` | server.js:71-75 | the theme becomes exactly the new one, so the old keys it lacks are dropped; it goes to every connection, the sender included; the timer restarts at now + 180000 |
| `ThemeServer.Server.GetPresets` | server.js:78-80 | the preset table is sent to the requester only, and nothing changes |
| `ThemeServer.Server.ApplyRandomPreset` | server.js:28-39 | fires only when the timer has expired; the picked name is one of Warm, Cold, Joyful, Carbon; if the table has that preset, the theme becomes equal to it and is sent to everyone; otherwise the theme is unchanged and nothing is sent; the timer restarts at now + 180000 |
| `ThemeServer.FullUpdateThenInitial` | server.js:59-75 | a full update followed by `getInitialTheme` answers exactly the new theme, whatever the state before |
| `ThemeServer.TwoClientScenario` | server.js:12-75 | with no origins configured the list is the localhost defaults; a variable update reaches only the other client, as `themeVariableUpdate {bg, #fff}`; a full update reaches both, as `themeUpdate {bg: #000}`; `getInitialTheme` then answers the new theme; the watchdog is not due until a full timeout after the last change |
| `ThemeServer.ReplayVariableUpdates` | server.js:64-68 | handling a sequence of single-variable updates leaves the last-write-wins fold of them onto the earlier theme; the watchdog is due one timeout after the last update |

## Left out

- The socket.io `Server`, `createServer`, `httpServer.listen` and the `PORT`
  setting are not modelled: they are library calls. CORS enforcement is left
  out too. Only the origin list handed to it is modelled.
- Loading `.env` files and reading `process.env` are not modelled. The
  `ALLOWED_ORIGINS` value is a parameter, and `None` stands for unset.
- `console.log` and `console.warn` output is left out: it has no effect on
  state.
- `Math.random` and `Math.floor` are floating-point. The pick they make is
  a nondeterministic choice of an index into the cycle. Uniformity of the
  pick is not modelled.
- Real timers and wall-clock time are replaced by the `deadline` field and
  a `now` parameter. The model does not require that `now` never decreases.
- The contents of presets.js are not part of this model. The table is an
  arbitrary map from names to themes.
- Connect and disconnect handling, socket ids beyond an opaque string, and
  the transport's delivery guarantees are left out.
- A payload object without a `variable` field writes the key `"undefined"`
  in the source. The model covers it only when the caller passes
  `Some(Update("undefined", value))`; nothing turns a missing name into that
  key by itself.
- ThemeServer.Server.UpdateThemeVariable: when a missing or null payload
  throws, nothing in the server catches the exception. What follows is not
  modelled: the uncaught exception escaping the event loop and, by default,
  the process ending with every connection and the theme lost.
- Server.constructor: module load and the `listen` callback are one step. So
  there is no state in which the server runs without a pending timer.
- Routing.Recipients: its own contract states only that recipients are live
  connections. What each audience reaches is stated by
  `BroadcastSplitsAtSender`.
- ThemeServer.SetVariable: a variable named `__proto__` is stored as an
  ordinary key. In the source, `theme["__proto__"] = value` runs the
  prototype setter instead: a non-object value is ignored, an object value
  replaces the theme's prototype, and the key is never an own key, so
  `getInitialTheme` does not send it. Keys that JavaScript treats specially
  are not modelled.
