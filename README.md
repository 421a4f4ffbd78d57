# fq-rs core, modelled in Dafny

fq-rs is a small fretboard / note-reading quiz: a Rust (axum) server keeps
games, rounds and users in SQLite and accepts websocket connections, and a
few browser scripts read the identity cookie, take the game id from the URL
and draw the note to guess. This project models the parts of it that are
logic rather than glue, and proves what they promise:

- `Game` (src/game.rs): the game status and its text codec (`Status::from`
  and `Display`, which the store relies on to write and read the status
  column), and the constructors `Game::new`, `Settings::default`, `Round::new`.
- `Theory` (src/theory.rs): the accidental → semitone offset table, the white
  key → semitones-above-C table, and the `Note` and `FretCoord` records.
- `Ws` (src/ws.rs): `process_message`, which classifies a received frame, and
  `ws_callback`, the per-connection receive loop, as a method looping over the
  sequence of receive results, proved against a recursive definition of the
  session. The decoding of `WsMessage` (serde, internally tagged by "type")
  is written out over parsed JSON documents.
- `Token` (assets/token.js): `getCookie` with its inner `escape`, and where
  `TOKEN` comes from. The regular expression is written out as matching
  functions: leftmost start, `^` tried before `;\s*`, greedy `\s*` that gives
  characters back, greedy `[^;]*`.
- `GamePage` (assets/game.js): `getPathEnd` (split on "/", take the last
  piece) and the page's refusal to start without a game id.
- `Staff` (assets/staff.js): `NOTE_REGEX` and `getAccidental`, and whether the
  staff adds an accidental modifier.
- `Base`: the option type and the fixed-width integer types of the Rust fields.

Everything is sequential and deterministic: the socket is a sequence of
receive results ending where the stream ends, the initial ping's outcome is a
boolean parameter, and `document.cookie` and `location.pathname` are string
parameters.

The page and the handler do not agree on the message format. The page sends
`{StartGame: {token, game_id}}` on its start button (assets/game.js:69) and
`{token, channel}` when the socket opens (assets/game.js:19 and
assets/game.js:26). But `WsMessage` in src/ws.rs:47-51 is tagged by "type"
and carries only `user_id`, so `process_message` panics at the `unwrap`
(src/ws.rs:57) on both. `Ws.ClientStartGameFrameRejected` and
`Ws.ClientConnectFrameRejected` prove this. The crate as it stands never
declares `mod ws` (src/main.rs:3-6, src/lib.rs:7-10) and routes no `/ws`
(src/main.rs:34-41), so the handler is modelled as written, unreachable as
it is.

## Model

| member | source | states |
|---|---|---|
| `Theory.Offset` | src/theory.rs:10-18 | every offset lies in [-2, 2]; it is 0 exactly for Natural and negative exactly for the two flats |
| `Theory.OffsetMonotonic` | src/theory.rs:12-16 | offsets strictly increase in the order DoubleFlat < Flat < Natural < Sharp < DoubleSharp, and only in that order |
| `Theory.OffsetInjective` | src/theory.rs:12-16 | two accidentals with the same offset are the same accidental |
| `Theory.OffsetAntisymmetric` | src/theory.rs:12-16 | each flat lowers by exactly what the matching sharp raises (offset of the mirror image is the negated offset) |
| `Theory.HalfStepsFromC` | src/theory.rs:32-42 | the distance above C lies in [0, 11] and is 0 exactly for C |
| `Theory.HalfStepsMonotonic` | src/theory.rs:34-40 | the distance strictly increases along C D E F G A B, and only in that order |
| `Theory.HalfStepsInjective` | src/theory.rs:34-40 | two white keys at the same distance from C are the same key |
| `Theory.WhiteKeySteps` | src/theory.rs:34-40 | neighbouring white keys are 2 semitones apart except E to F (and B to the next C), which are 1 apart |
| `Game.StatusName` | src/game.rs:58-61 | the printed status is one of the five variant names |
| `Game.StatusFrom` | src/game.rs:46-54 | a string parses exactly when it is one of the five names, and a parsed status prints back as the same string |
| `Game.StatusRoundTrip` | src/game.rs:46-61 | reading back a printed status gives the same status, so the status written by insert_game is recovered by fetch_game's unwrap |
| `Game.StatusParsePrint` | src/game.rs:46-61 | `from(t) == Some(s)` if and only if `s.to_string() == t`: the codec is a bijection between statuses and their names |
| `Game.StatusNameInjective` | src/game.rs:58-61 | different statuses print differently |
| `Game.StatusFromIsCaseSensitive` | src/game.rs:53 | lower-case spellings and the empty string are rejected |
| `Game.DefaultSettings` | src/game.rs:83-91 | no id or game id, 4 rounds over frets 0 to 4, hence at least one round and start fret ≤ end fret |
| `Game.NewRound` | src/game.rs:131-141 | no id, no guesses, note C (0 semitones above C) in octave 4 without accidental |
| `Game.NewGame` | src/game.rs:25-33 | no id, the given host, status Init (which survives the store's text column), default settings and no rounds |
| `Ws.EncodeWsMessage` | src/ws.rs:47-51 | a message is written as an object with exactly the fields "type" = "StartGame" and "user_id" |
| `Ws.DecodeWsMessage` | src/ws.rs:47-51 | a decoded message comes from an object that contains its encoding |
| `Ws.DecodeCharacterised` | src/ws.rs:47-51 | decoding yields `m` if and only if the document is an object containing the encoding of `m` (extra fields ignored) |
| `Ws.WsMessageRoundTrip` | src/ws.rs:47-51 | decoding what is encoded gives the message back |
| `Ws.ProcessMessage` | src/ws.rs:53-82 | Break exactly for Close (with or without a close frame); a panic exactly for a Text frame that does not decode; Continue for Ping, Pong, Binary and decodable Text |
| `Ws.ClientStartGameFrameRejected` | src/ws.rs:55-59 | the page's `{"StartGame": {token, game_id}}` frame has no "type" tag, so the handler panics on it for every token and game id |
| `Ws.ClientConnectFrameRejected` | src/ws.rs:55-59 | the page's join frame `{token, channel}` makes the handler panic too |
| `Ws.Drain` | src/ws.rs:35-44 | the receive loop never processes more frames than were received, and the processed frames are the leading inputs, each received without error |
| `Ws.DrainProcessesPrefix` | src/ws.rs:35-44 | processed frames are handed over in the order received, each exactly once |
| `Ws.DrainUpToFirstStop` | src/ws.rs:35-44 | the loop stops right after the first Close or panicking frame, or at the first receive error without processing it; with neither, every input is processed and the stream simply ends |
| `Ws.DrainEnding` | src/ws.rs:35-44 | every processed frame but the last let the loop continue, and each ending is explained by the last frame or the input after it |
| `Ws.Callback` | src/ws.rs:27-45 | a failed ping ends the handler before anything is received; after a successful ping it never ends as a ping failure |
| `Ws.DrainContinues` | src/ws.rs:35-44 | a turn of the loop that goes on moves the frame it processed from the rest of the session to the frames processed so far |
| `Ws.WsCallback` | src/ws.rs:27-45 | the loop's frames processed and ending equal the session definition, and the processed frames are a prefix of the successful receives |
| `GamePage.SplitSlash` | assets/game.js:10 | split always gives at least one piece, no piece holds a slash, and there is a single piece, the whole string, exactly when the string has no slash |
| `GamePage.SplitLastIsSuffix` | assets/game.js:10-11 | the last piece is a suffix of the path, preceded by a slash unless it is the whole path |
| `GamePage.JoinConsFirst` | assets/game.js:10 | a character put in front of the first piece stands in front of the joined string |
| `GamePage.SplitJoin` | assets/game.js:10 | joining the pieces with "/" restores the path |
| `GamePage.GetPathEnd` | assets/game.js:9-12 | the result holds no '/', is a suffix of the path, and is preceded by '/' unless it is the whole path |
| `GamePage.NoSlashIsWhole` | assets/game.js:10-11 | a path without '/' is returned whole, hence getPathEnd is idempotent |
| `GamePage.EmptyPathEnd` | assets/game.js:10-11 | the result is empty exactly when the path is empty or ends in '/' |
| `GamePage.GamePathExample` | assets/game.js:7 | getPathEnd("/games/42") is "42" |
| `GamePage.GameId` | assets/game.js:14-15 | the page throws exactly for an empty path or one ending in '/'; otherwise the id is non-empty and slash-free |
| `Staff.AccidentalAt` | assets/staff.js:3 | the group takes the longest of "##", "#", "bb", "b", "n" that starts right after the letter, or nothing when none does |
| `Staff.FirstNoteLetter` | assets/staff.js:3 | the match starts at the leftmost upper-case A–G; earlier characters are skipped |
| `Staff.GetAccidental` | assets/staff.js:5-8 | throws exactly when the name has no upper-case A–G; otherwise the accidental right after the leftmost such letter, one of "#", "##", "b", "bb", "n", or undefined |
| `Staff.GreedySharps` | assets/staff.js:3 | "C##" and "C###" give "##" |
| `Staff.GreedyFlats` | assets/staff.js:3 | "Cbb" gives "bb", "Bb4" gives "b" |
| `Staff.AdjacentExamples` | assets/staff.js:3 | "C" and "C x#" give undefined, "c#/4" throws |
| `Staff.FirstAlternativeExamples` | assets/staff.js:3 | "Cb#" gives "b", "x F#" gives "#" |
| `Staff.StaffAccidental` | assets/staff.js:25-28 | the destructuring in `getAccidental` throws exactly when the name has no note letter; otherwise a modifier is added exactly when `getAccidental` gave a (non-empty) text, and it is that text |
| `Token.Escape` | assets/token.js:8-10 | the result is longer by exactly the number of escaped characters, and it equals the input exactly when the input has no escaped character |
| `Token.EscapeReadsLiteral` | assets/token.js:8-10 | the escaped name, read as a pattern, is the literal name itself: the name is matched character for character |
| `Token.ValueFrom` | assets/token.js:12 | the captured value holds no ';', is the text at that position, and runs to the next ';' or the end |
| `Token.SpaceRun` | assets/token.js:12 | `\s*` first takes all the white space there is |
| `Token.Backtrack` | assets/token.js:12 | giving back white space one character at a time finds a `name=` at some position in the range, or there is none |
| `Token.MatchAt` | assets/token.js:12 | a match attempt finds an entry, at index 0 for `^` or after the ';' it starts on |
| `Token.Search` | assets/token.js:12 | the leftmost match found is an entry for the name |
| `Token.GetCookie` | assets/token.js:12-13 | a returned value is that of an entry for the name (at the start or after ';' and white space) and holds no ';' |
| `Token.GetCookieFindsEntry` | assets/token.js:12-13 | whenever an entry for the name is present the result is not null; with the above, null exactly when no entry is present |
| `Token.Periodic` | assets/token.js:12 | two occurrences of the name with only white space between their starts make the character after the first one white space |
| `Token.UniqueInRun` | assets/token.js:12 | within one run of white space, `name=` stands at most once, so giving back white space can only find one place |
| `Token.MatchNotPast` | assets/token.js:12 | a match attempt starting at or before an entry finds the name no further right than that entry |
| `Token.SearchLeftmost` | assets/token.js:12 | the search from any start at or before an entry succeeds, at that entry or further left |
| `Token.SearchGivesValue` | assets/token.js:12-13 | the match the search finds is an entry, and its value is what `getCookie` returns |
| `Token.WinningEntry` | assets/token.js:12-13 | given an entry, for any name, the returned value belongs to an entry at or before it |
| `Token.GetCookieLeftmost` | assets/token.js:12-13 | for any name, of several entries the value of the leftmost one is returned |
| `Token.EntryAtStartWins` | assets/token.js:12-13 | an entry at the very start of the cookie string gives the returned value, since the `^` alternative is tried first |
| `Token.NoMatchInsideName` | assets/token.js:12 | "x_fq_user=v" holds no entry for "_fq_user" |
| `Token.EntryAtStartValue` | assets/token.js:12-13 | a cookie string that starts with `name=`, a value without ';' and a ';' gives that value, whatever follows |
| `Token.ValueIs` | assets/token.js:12 | `[^;]*` captures exactly a text without ';' that a ';' follows |
| `Token.FirstOfTwoEntries` | assets/token.js:12-13 | for any first value without ';' and any second value, "_fq_user=<first>; _fq_user=<second>" gives the first value |
| `Token.EmptyValue` | assets/token.js:12-13 | "_fq_user=" gives the empty string |
| `Token.TokenFrom` | assets/token.js:28 | the token comes from the cookie exactly when getCookie gives a non-empty value; otherwise it is fetched |
| `Token.EmptyValueFetches` | assets/token.js:28 | an empty cookie value is falsy, so the token is fetched |

## Left out

- `ensure_games_tables`, `insert_game` and `fetch_game` (src/game.rs): SQL through sqlx in async transactions; only the status codec they depend on is modelled.
- `Note.accidental` is `Option<Accidental>`: src/theory.rs:47 declares a plain `Accidental`, but src/game.rs:137 builds a note with `accidental: None`; the two do not type-check together, and the model keeps the optional form the constructor uses.
- Integer widths: the Rust fields keep their widths as Dafny newtypes; no operation modelled does arithmetic on them, so no overflow can arise.
- `upgrade_ws`, the console output, the actual socket send and receive, and the text-to-JSON parser (src/ws.rs): a Text frame carries the parsed document, or `Unparsable`.
- `Ws.DecodeWsMessage`: JSON objects are maps, so duplicate keys (which serde rejects for struct fields) are not represented, and serde's sequence form for internally tagged enums (a JSON array led by the tag) is not modelled and is treated as a failed decode.
- A panic in `process_message` is modelled as the end of the connection's handler (ending `Panicked`); unwinding and the task runtime are not modelled.
- Room registry and broadcast fan-out (src/app_state.rs): the file declares a map of rooms around a broadcast channel but contains no operation on it.
- src/auth.rs, src/routes.rs, src/main.rs, src/lib.rs, src/user.rs and src/user/: JWT, cookies, routing, templates and SQL, all through foreign libraries.
- src/game/db.rs, src/game/mod.rs, src/game/round.rs, src/game/guess.rs: commented out or bare declarations; round.rs calls a random note constructor that does not exist.
- `fetchToken` (assets/token.js) and the WebSocket and DOM wiring of assets/game.js: network and browser I/O; `TOKEN` is modelled only as the choice between the cookie value and a fetch.
- `Staff.StaffAccidental` assumes the VexFlow calls that the constructor makes before `getAccidental` (the renderer, the stave and the `StaveNote` built from the name, assets/staff.js:12-23) succeed; VexFlow can throw there first, for instance on a key without "/octave", and the model does not capture that.
- The `Staff` class's drawing (assets/staff.js) and all of assets/fretboard.js: VexFlow/SVG rendering and floating-point geometry; only the accidental decision of the constructor is modelled.
- JavaScript strings are sequences of UTF-16 code units; the model's characters are Unicode scalar values, so characters outside the Basic Multilingual Plane count as one character here and two in the browser.
- `Token.GetCookie` matches the literal name instead of compiling `escape(name)`; `Token.EscapeReadsLiteral` proves the two agree, but `Token.ReadLiteral` only knows the escapes that `escape` produces, not the rest of the pattern language.
