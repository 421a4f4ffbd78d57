/** The cookie lookup of assets/token.js. `getCookie(name)` builds the
    pattern `(?:^|;\s*)` + escape(name) + `=([^;]*)` and returns the first
    capture of its leftmost match in `document.cookie`, or null. Here the
    cookie string is a parameter and the pattern's matching is written out:
    start positions are tried from the left; at each one the `^` alternative
    is tried before `;\s*`; `\s*` is greedy and gives characters back one at a
    time when the name does not follow; `[^;]*` takes every character up to
    the next ';'. */
module Token {
  import opened Base

  const UserCookie: string := "_fq_user"

  /** The characters `escape` puts a backslash in front of. */
  predicate IsEscaped(c: char) {
    c in ".*+?^$(){}|[]/\\"
  }

  /** The characters that mean something other than themselves in a pattern
      (outside a character class). '/' is not one of them, but `escape`
      escapes it too, which is harmless. */
  predicate IsSyntaxChar(c: char) {
    c in "^$\\.*+?()[]{}|"
  }

  /** How many characters of `s` `escape` puts a backslash in front of. */
  function EscapedCount(s: string): (n: nat)
    ensures n <= |s|
    ensures n == 0 <==> forall i :: 0 <= i < |s| ==> !IsEscaped(s[i])
  {
    if s == [] then 0
    else (if IsEscaped(s[0]) then 1 else 0) + EscapedCount(s[1..])
  }

  /** `escape`: one backslash in front of each escaped character, every other
      character unchanged. The result grows by one character per escaped
      character, and a name without escaped characters comes back as it is. */
  function Escape(s: string): (r: string)
    ensures |r| == |s| + EscapedCount(s)
    ensures r == s <==> forall i :: 0 <= i < |s| ==> !IsEscaped(s[i])
  {
    if s == [] then []
    else
      var r := (if IsEscaped(s[0]) then ['\\', s[0]] else [s[0]]) + Escape(s[1..]);
      assert s == [s[0]] + s[1..];
      assert !IsEscaped(s[0]) ==> (r == s <==> Escape(s[1..]) == s[1..]);
      r
  }

  function Cons(c: char, r: Option<string>): Option<string> {
    if r.Some? then Some([c] + r.value) else None
  }

  /** The text a pattern matches when it is a plain literal: a backslash
      followed by an escaped character stands for that character, any
      character without a special meaning stands for itself, and anything
      else (an unescaped special character, any other escape) is not a
      literal and gives `None`. */
  function ReadLiteral(p: string): (r: Option<string>)
  {
    if p == [] then Some([])
    else if p[0] == '\\' then
      if |p| >= 2 && IsEscaped(p[1]) then Cons(p[1], ReadLiteral(p[2..])) else None
    else if IsSyntaxChar(p[0]) then None
    else Cons(p[0], ReadLiteral(p[1..]))
  }

  /** An escaped name is a literal pattern for exactly that name, so the
      lookup compares the name character by character. */
  lemma {:induction false} EscapeReadsLiteral(s: string)
    ensures ReadLiteral(Escape(s)) == Some(s)
  {
    if s != [] {
      EscapeReadsLiteral(s[1..]);
      var e := Escape(s);
      if IsEscaped(s[0]) {
        assert e[0] == '\\' && e[1] == s[0] && e[2..] == Escape(s[1..]);
      } else {
        assert e[0] == s[0] && e[1..] == Escape(s[1..]);
      }
      assert s == [s[0]] + s[1..];
    }
  }

  /** `\s`: the white space and line terminators of JavaScript. */
  predicate IsSpace(c: char) {
    || c == '\t' || c == '\n' || c == '\U{B}' || c == '\U{C}' || c == '\r' || c == ' '
    || c == '\U{A0}' || c == '\U{1680}' || ('\U{2000}' <= c <= '\U{200A}')
    || c == '\U{2028}' || c == '\U{2029}' || c == '\U{202F}' || c == '\U{205F}'
    || c == '\U{3000}' || c == '\U{FEFF}'
  }

  /** `([^;]*)` from index `i`: everything up to the next ';' or the end. */
  function ValueFrom(cookie: string, i: nat): (v: string)
    requires i <= |cookie|
    ensures ';' !in v
    ensures i + |v| <= |cookie| && cookie[i..i + |v|] == v
    ensures i + |v| == |cookie| || cookie[i + |v|] == ';'
    decreases |cookie| - i
  {
    if i == |cookie| || cookie[i] == ';' then [] else [cookie[i]] + ValueFrom(cookie, i + 1)
  }

  /** How many characters `\s*` takes at first from index `i`: all the white
      space there is. */
  function SpaceRun(cookie: string, i: nat): (n: nat)
    requires i <= |cookie|
    ensures i + n <= |cookie|
    ensures forall k :: i <= k < i + n ==> IsSpace(cookie[k])
    ensures i + n == |cookie| || !IsSpace(cookie[i + n])
    decreases |cookie| - i
  {
    if i < |cookie| && IsSpace(cookie[i]) then 1 + SpaceRun(cookie, i + 1) else 0
  }

  /** `name=` stands at index `q`. */
  predicate NameAt(cookie: string, name: string, q: nat) {
    q + |name| < |cookie| && cookie[q..q + |name|] == name && cookie[q + |name|] == '='
  }

  /** The match that finds a name at `q` can start at `j`: both are the
      beginning of the string (the `^` alternative), or `j` holds a ';' and
      only white space lies between it and `q`. */
  predicate EntryStart(cookie: string, q: nat, j: nat) {
    && j <= q <= |cookie|
    && ((q == 0 && j == 0) || (j < q && cookie[j] == ';' && forall k :: j < k < q ==> IsSpace(cookie[k])))
  }

  /** An entry for `name` whose name starts at `q`: at the very beginning of
      the cookie string, or after a ';' and optional white space. */
  ghost predicate IsEntry(cookie: string, name: string, q: nat) {
    NameAt(cookie, name, q) && exists j: nat :: EntryStart(cookie, q, j)
  }

  /** `\s*` giving characters back: the name is tried at `base + k`, then
      `base + k - 1`, down to `base`. */
  function Backtrack(cookie: string, name: string, base: nat, k: nat): (r: Option<nat>)
    ensures r.Some? ==> base <= r.value <= base + k && NameAt(cookie, name, r.value)
    ensures r.None? ==> forall q :: base <= q <= base + k ==> !NameAt(cookie, name, q)
    decreases k
  {
    if NameAt(cookie, name, base + k) then Some(base + k)
    else if k == 0 then None
    else Backtrack(cookie, name, base, k - 1)
  }

  /** The match attempt at start index `p`, giving where the name stands:
      the `^` alternative, which only applies at index 0, and then `;\s*`. */
  function MatchAt(cookie: string, name: string, p: nat): (r: Option<nat>)
    requires p <= |cookie|
    ensures r.Some? ==> IsEntry(cookie, name, r.value)
    ensures r.Some? ==> (p == 0 && r.value == 0) || (p < r.value && cookie[p] == ';')
  {
    if p == 0 && NameAt(cookie, name, 0) then assert EntryStart(cookie, 0, 0); Some(0)
    else if p < |cookie| && cookie[p] == ';' then
      var r := Backtrack(cookie, name, p + 1, SpaceRun(cookie, p + 1));
      assert r.Some? ==> EntryStart(cookie, r.value, p);
      r
    else None
  }

  /** The leftmost start index from `p` on where the pattern matches. */
  function Search(cookie: string, name: string, p: nat): (r: Option<nat>)
    requires p <= |cookie|
    ensures r.Some? ==> IsEntry(cookie, name, r.value)
    decreases |cookie| - p
  {
    var m := MatchAt(cookie, name, p);
    if m.Some? then m
    else if p == |cookie| then None
    else Search(cookie, name, p + 1)
  }

  /** `getCookie(name)` on the cookie string: the value of an entry for
      `name`, which never contains ';', or `None` for null. */
  function GetCookie(cookie: string, name: string): (r: Option<string>)
    ensures r.Some? ==> ';' !in r.value
    ensures r.Some? ==> exists q: nat :: IsEntry(cookie, name, q) && r.value == ValueFrom(cookie, q + |name| + 1)
  {
    match Search(cookie, name, 0)
    case Some(q) => Some(ValueFrom(cookie, q + |name| + 1))
    case None => None
  }

  lemma SpaceRunCovers(cookie: string, i: nat, q: nat)
    requires i <= q <= |cookie|
    requires forall k :: i <= k < q ==> IsSpace(cookie[k])
    ensures q <= i + SpaceRun(cookie, i)
  {
  }

  /** The match attempt at the start of an entry succeeds. */
  lemma MatchAtEntry(cookie: string, name: string, q: nat, j: nat)
    requires NameAt(cookie, name, q) && EntryStart(cookie, q, j)
    ensures j <= |cookie| && MatchAt(cookie, name, j).Some?
  {
  }

  lemma {:induction false} SearchReaches(cookie: string, name: string, p: nat, j: nat)
    requires p <= j <= |cookie| && MatchAt(cookie, name, j).Some?
    ensures Search(cookie, name, p).Some?
    decreases j - p
  {
    if p < j && MatchAt(cookie, name, p).None? {
      SearchReaches(cookie, name, p + 1, j);
    }
  }

  /** `getCookie` returns null exactly when the cookie string has no entry
      for the name. */
  lemma GetCookieFindsEntry(cookie: string, name: string, q: nat)
    requires IsEntry(cookie, name, q)
    ensures GetCookie(cookie, name).Some?
  {
    var j: nat :| EntryStart(cookie, q, j);
    MatchAtEntry(cookie, name, q, j);
    SearchReaches(cookie, name, 0, j);
  }

  /** If the name occurs at `q1` and again at `q2`, with only white space from
      `q1` up to `q2`, then everything from `q1` to the character right after
      the first occurrence is white space: the second occurrence repeats the
      first one shifted by `q2 - q1`. */
  lemma {:induction false} Periodic(cookie: string, name: string, q1: nat, q2: nat, m: nat)
    requires q1 < q2 && q2 + |name| <= |cookie|
    requires cookie[q1..q1 + |name|] == name && cookie[q2..q2 + |name|] == name
    requires forall k :: q1 <= k < q2 ==> IsSpace(cookie[k])
    requires q1 <= m <= q1 + |name|
    ensures m < |cookie| && IsSpace(cookie[m])
    decreases m
  {
    if m >= q2 {
      assert cookie[m] == name[m - q2] == cookie[q1 + (m - q2)];
      Periodic(cookie, name, q1, q2, m - (q2 - q1));
    }
  }

  /** Within one run of white space the name, followed by '=', stands at most
      once: `\s*` has a single place to give characters back to. */
  lemma UniqueInRun(cookie: string, name: string, q1: nat, q2: nat)
    requires q1 < q2
    requires forall k :: q1 <= k < q2 && k < |cookie| ==> IsSpace(cookie[k])
    ensures !(NameAt(cookie, name, q1) && NameAt(cookie, name, q2))
  {
    if NameAt(cookie, name, q1) && NameAt(cookie, name, q2) {
      Periodic(cookie, name, q1, q2, q1 + |name|);
    }
  }

  /** A match attempt that starts at or before the start of an entry finds
      the name no further right than that entry's name. */
  lemma MatchNotPast(cookie: string, name: string, p: nat, q': nat, j': nat)
    requires p <= j' && NameAt(cookie, name, q') && EntryStart(cookie, q', j')
    requires MatchAt(cookie, name, p).Some?
    ensures MatchAt(cookie, name, p).value <= q'
  {
    if !(p == 0 && NameAt(cookie, name, 0)) {
      var w := SpaceRun(cookie, p + 1);
      var q := Backtrack(cookie, name, p + 1, w).value;
      assert MatchAt(cookie, name, p).value == q;
      if q' < q && j' == p {
        UniqueInRun(cookie, name, q', q);
      }
    }
  }

  /** The search stops at the first start position where the attempt matches. */
  lemma SearchHere(cookie: string, name: string, p: nat)
    requires p <= |cookie| && MatchAt(cookie, name, p).Some?
    ensures Search(cookie, name, p) == MatchAt(cookie, name, p)
  {
  }

  /** Otherwise it goes on from the next position. */
  lemma SearchSkips(cookie: string, name: string, p: nat)
    requires p < |cookie| && MatchAt(cookie, name, p).None?
    ensures Search(cookie, name, p) == Search(cookie, name, p + 1)
  {
  }

  /** The search from any start at or before the start of an entry succeeds,
      and finds the name no further right than that entry's name. */
  lemma {:induction false} SearchLeftmost(cookie: string, name: string, p: nat, q': nat, j': nat)
    requires p <= j' && NameAt(cookie, name, q') && EntryStart(cookie, q', j')
    ensures p <= |cookie| && Search(cookie, name, p).Some? && Search(cookie, name, p).value <= q'
    decreases j' - p
  {
    MatchAtEntry(cookie, name, q', j');
    if MatchAt(cookie, name, p).Some? {
      MatchNotPast(cookie, name, p, q', j');
      SearchHere(cookie, name, p);
    } else {
      SearchLeftmost(cookie, name, p + 1, q', j');
      SearchSkips(cookie, name, p);
    }
  }

  /** The match found by the search gives the value `getCookie` returns. */
  lemma SearchGivesValue(cookie: string, name: string, q: nat)
    requires Search(cookie, name, 0) == Some(q)
    ensures IsEntry(cookie, name, q) && GetCookie(cookie, name) == Some(ValueFrom(cookie, q + |name| + 1))
  {
  }

  /** The entry whose value is returned, for a given entry starting at `j'`. */
  lemma WinningEntry(cookie: string, name: string, q': nat, j': nat) returns (q: nat)
    requires NameAt(cookie, name, q') && EntryStart(cookie, q', j')
    ensures q <= q' && IsEntry(cookie, name, q) && GetCookie(cookie, name) == Some(ValueFrom(cookie, q + |name| + 1))
  {
    SearchLeftmost(cookie, name, 0, q', j');
    q := Search(cookie, name, 0).value;
    SearchGivesValue(cookie, name, q);
  }

  /** When the name occurs several times, the leftmost entry wins. */
  lemma GetCookieLeftmost(cookie: string, name: string, q': nat)
    requires IsEntry(cookie, name, q')
    ensures exists q: nat :: && q <= q' && IsEntry(cookie, name, q)
                             && GetCookie(cookie, name) == Some(ValueFrom(cookie, q + |name| + 1))
  {
    var j': nat :| EntryStart(cookie, q', j');
    var q := WinningEntry(cookie, name, q', j');
  }

  /** An entry at the very start of the cookie string is the one returned,
      since the `^` alternative is tried first. */
  lemma EntryAtStartWins(cookie: string, name: string)
    requires NameAt(cookie, name, 0)
    ensures GetCookie(cookie, name) == Some(ValueFrom(cookie, |name| + 1))
  {
  }

  /** The name only counts at the start or after a separator: in
      "x_fq_user=v" there is no `_fq_user` entry. */
  lemma NoMatchInsideName()
    ensures GetCookie("x_fq_user=v", UserCookie) == None
  {
  }

  /** `[^;]*` takes exactly a text without ';' that is followed by a ';'. */
  lemma ValueIs(cookie: string, i: nat, v: string)
    requires i + |v| < |cookie| && cookie[i..i + |v|] == v && ';' !in v && cookie[i + |v|] == ';'
    ensures ValueFrom(cookie, i) == v
  {
  }

  /** A cookie string that starts with `name=`, then a value without ';',
      then a ';', gives that value, whatever follows. */
  lemma EntryAtStartValue(cookie: string, name: string, v: string)
    requires |name| + 1 + |v| < |cookie| && cookie[..|name|] == name && cookie[|name|] == '='
    requires cookie[|name| + 1..|name| + 1 + |v|] == v && ';' !in v && cookie[|name| + 1 + |v|] == ';'
    ensures GetCookie(cookie, name) == Some(v)
  {
    assert cookie[0..|name|] == cookie[..|name|];
    EntryAtStartWins(cookie, name);
    ValueIs(cookie, |name| + 1, v);
  }

  /** Of two entries for the cookie, the first one's value is returned,
      whatever the second one holds. */
  lemma FirstOfTwoEntries(first: string, second: string)
    requires ';' !in first
    ensures GetCookie("_fq_user=" + (first + ("; _fq_user=" + second)), UserCookie) == Some(first)
  {
    var head := "_fq_user=";
    var rest := first + ("; _fq_user=" + second);
    var cookie := head + rest;
    assert cookie[..9] == head && cookie[9..] == rest;
    assert cookie[..8] == head[..8] == UserCookie && cookie[8] == head[8] == '=';
    assert rest[..|first|] == first && rest[|first|] == ';';
    assert cookie[9..9 + |first|] == rest[..|first|] && cookie[9 + |first|] == rest[|first|];
    EntryAtStartValue(cookie, UserCookie, first);
  }

  /** An entry with an empty value gives the empty string. */
  lemma EmptyValue()
    ensures GetCookie("_fq_user=", UserCookie) == Some("")
  {
  }

  /** Where `TOKEN` comes from: the cookie's value when it is truthy (a
      non-empty string), otherwise a request to the server. */
  datatype TokenSource = FromCookie(token: string) | Fetch

  function TokenFrom(cookie: string): (r: TokenSource)
    ensures r.FromCookie? <==> GetCookie(cookie, UserCookie).Some? && GetCookie(cookie, UserCookie).value != ""
    ensures r.FromCookie? ==> r.token == GetCookie(cookie, UserCookie).value && ';' !in r.token
  {
    match GetCookie(cookie, UserCookie)
    case Some(v) => if v != "" then FromCookie(v) else Fetch
    case None => Fetch
  }

  /** An empty cookie value is falsy, so the page fetches a token. */
  lemma EmptyValueFetches()
    ensures TokenFrom("_fq_user=") == Fetch
  {
  }
}
