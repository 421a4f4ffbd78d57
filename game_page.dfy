/** The path handling of assets/game.js: the page takes the game id from the
    last segment of its URL path and refuses to start without one. */
module GamePage {
  import opened Base

  /** `s.split("/")`: the pieces between slashes, in order. There is always at
      least one piece, no piece holds a slash, and a single piece is the whole
      string. */
  function SplitSlash(s: string): (parts: seq<string>)
    ensures |parts| >= 1
    ensures forall k :: 0 <= k < |parts| ==> '/' !in parts[k]
    ensures |parts| == 1 ==> parts[0] == s
    ensures |parts| == 1 <==> '/' !in s
  {
    if s == [] then [[]]
    else
      var rest := SplitSlash(s[1..]);
      if s[0] == '/' then [[]] + rest
      else
        var first := [s[0]] + rest[0];
        assert s == [s[0]] + s[1..];
        assert |rest| == 1 ==> first == s;
        [first] + rest[1..]
  }

  /** The last piece is the text after the last slash: a suffix of `s`,
      preceded by a slash unless it is all of `s`. */
  lemma {:induction false} SplitLastIsSuffix(s: string)
    ensures var parts := SplitSlash(s);
      var last := parts[|parts| - 1];
      && |last| <= |s| && s[|s| - |last|..] == last
      && (|last| < |s| ==> s[|s| - |last| - 1] == '/')
  {
    if s != [] {
      SplitLastIsSuffix(s[1..]);
      var rest := SplitSlash(s[1..]);
      var last := rest[|rest| - 1];
      var parts := SplitSlash(s);
      if s[0] == '/' || |rest| > 1 {
        assert parts[|parts| - 1] == last;
        assert s[1..][|s| - 1 - |last|..] == s[|s| - |last|..];
        assert |last| == |s| - 1 ==> last == s[1..];
      } else {
        assert parts[|parts| - 1] == s;
      }
    }
  }

  /** `parts.join("/")`. */
  function JoinSlash(parts: seq<string>): string
    requires |parts| >= 1
  {
    if |parts| == 1 then parts[0] else parts[0] + "/" + JoinSlash(parts[1..])
  }

  /** Putting a character in front of the first piece puts it in front of the
      joined string. */
  lemma {:induction false} JoinConsFirst(c: char, parts: seq<string>)
    requires |parts| >= 1
    ensures JoinSlash([[c] + parts[0]] + parts[1..]) == [c] + JoinSlash(parts)
  {
    var joined := [[c] + parts[0]] + parts[1..];
    if |parts| > 1 {
      assert joined[1..] == parts[1..];
      var tail := JoinSlash(parts[1..]);
      assert JoinSlash(joined) == ([c] + parts[0]) + "/" + tail;
      assert ([c] + parts[0]) + "/" + tail == [c] + (parts[0] + "/" + tail);
    }
  }

  /** Splitting loses nothing: joining the pieces with slashes restores the input. */
  lemma {:induction false} SplitJoin(s: string)
    ensures JoinSlash(SplitSlash(s)) == s
  {
    if s != [] {
      var rest := SplitSlash(s[1..]);
      SplitJoin(s[1..]);
      if s[0] == '/' {
        assert SplitSlash(s)[1..] == rest;
        assert s == "/" + s[1..];
      } else {
        JoinConsFirst(s[0], rest);
        assert s == [s[0]] + s[1..];
      }
    }
  }

  /** `getPathEnd`: the last piece of the path. It holds no slash, it is a
      suffix of the path, and a slash stands right before it unless it is the
      whole path. */
  function GetPathEnd(pathname: string): (r: string)
    ensures '/' !in r
    ensures |r| <= |pathname| && pathname[|pathname| - |r|..] == r
    ensures |r| < |pathname| ==> pathname[|pathname| - |r| - 1] == '/'
  {
    SplitLastIsSuffix(pathname);
    var parts := SplitSlash(pathname);
    parts[|parts| - 1]
  }

  /** A path without slashes is its own last segment, so `getPathEnd` is idempotent. */
  lemma NoSlashIsWhole(s: string)
    ensures '/' !in s ==> GetPathEnd(s) == s
    ensures GetPathEnd(GetPathEnd(s)) == GetPathEnd(s)
  {
  }

  /** The last segment is empty exactly when the path is empty or ends in a slash. */
  lemma EmptyPathEnd(s: string)
    ensures GetPathEnd(s) == "" <==> s == "" || s[|s| - 1] == '/'
  {
  }

  /** The example in the function's documentation. */
  lemma GamePathExample()
    ensures GetPathEnd("/games/42") == "42"
  {
  }

  /** The game id the page uses, or `None` when it throws "could not extract
      game id from path" because the last segment is empty. */
  function GameId(pathname: string): (r: Option<string>)
    ensures r.None? <==> pathname == "" || pathname[|pathname| - 1] == '/'
    ensures r.Some? ==> r.value != "" && '/' !in r.value
  {
    EmptyPathEnd(pathname);
    var id := GetPathEnd(pathname);
    if id == "" then None else Some(id)
  }
}
