/**
  The list of origins the server hands to its CORS layer (server.js, lines 11-20).

  The raw `ALLOWED_ORIGINS` value is split on commas, every piece is trimmed
  as JavaScript's `String.prototype.trim` does, empty pieces are dropped, and
  when nothing survives the list falls back to three localhost origins.
  Reading the environment is not modelled: the variable arrives as an
  `Option<string>`, `None` when it is unset.
 */
module Origins {
  import opened Wrappers

  /** The origins used when the environment yields none, in this order. */
  const DEFAULT_ORIGINS: seq<string> :=
    ["http://localhost:3000", "http://localhost:3001", "http://localhost:3002"]

  /** The characters `trim` removes: ECMAScript's WhiteSpace (tab, vertical
      tab, form feed, space, no-break space, byte-order mark and every other
      Unicode space separator) and LineTerminator (LF, CR, LS, PS). */
  predicate IsWhitespace(c: char) {
    || c == '\t' || c == '\n' || c == '\U{000B}' || c == '\U{000C}' || c == '\r'
    || c == ' ' || c == '\U{00A0}' || c == '\U{1680}'
    || ('\U{2000}' <= c <= '\U{200A}')
    || c == '\U{2028}' || c == '\U{2029}' || c == '\U{202F}' || c == '\U{205F}'
    || c == '\U{3000}' || c == '\U{FEFF}'
  }

  /** Every character of `s` is whitespace (the empty string included). */
  predicate Blank(s: string) {
    forall k :: 0 <= k < |s| ==> IsWhitespace(s[k])
  }

  /** Neither end of `s` is whitespace. */
  predicate IsTrimmed(s: string) {
    s == [] || (!IsWhitespace(s[0]) && !IsWhitespace(s[|s| - 1]))
  }

  /** Drops leading whitespace. */
  function TrimStart(s: string): string {
    if s != [] && IsWhitespace(s[0]) then TrimStart(s[1..]) else s
  }

  /** Drops trailing whitespace. */
  function TrimEnd(s: string): string {
    if s != [] && IsWhitespace(s[|s| - 1]) then TrimEnd(s[..|s| - 1]) else s
  }

  /** `TrimStart` gives a suffix of `s` that does not start with whitespace,
      and what it drops is whitespace. */
  lemma {:induction false} TrimStartSpec(s: string)
    ensures |TrimStart(s)| <= |s| && TrimStart(s) == s[|s| - |TrimStart(s)|..]
    ensures Blank(s[..|s| - |TrimStart(s)|])
    ensures TrimStart(s) == [] || !IsWhitespace(TrimStart(s)[0])
  {
    if s != [] && IsWhitespace(s[0]) {
      var tail := s[1..];
      TrimStartSpec(tail);
      var r := TrimStart(tail);
      assert tail[|tail| - |r|..] == s[|s| - |r|..];
      var dropped := s[..|s| - |r|];
      forall k | 0 <= k < |dropped|
        ensures IsWhitespace(dropped[k])
      {
        if k > 0 {
          assert dropped[k] == tail[..|tail| - |r|][k - 1];
        }
      }
    }
  }

  /** `TrimEnd` gives a prefix of `s` that does not end with whitespace, and
      what it drops is whitespace. */
  lemma {:induction false} TrimEndSpec(s: string)
    ensures |TrimEnd(s)| <= |s| && TrimEnd(s) == s[..|TrimEnd(s)|]
    ensures Blank(s[|TrimEnd(s)|..])
    ensures TrimEnd(s) == [] || !IsWhitespace(TrimEnd(s)[|TrimEnd(s)| - 1])
  {
    if s != [] && IsWhitespace(s[|s| - 1]) {
      var init := s[..|s| - 1];
      TrimEndSpec(init);
      var r := TrimEnd(init);
      assert init[..|r|] == s[..|r|];
      var dropped := s[|r|..];
      forall k | 0 <= k < |dropped|
        ensures IsWhitespace(dropped[k])
      {
        if k < |s| - 1 - |r| {
          assert dropped[k] == init[|r|..][k];
        }
      }
    }
  }

  /** `String.prototype.trim`: the result is a slice `s[i..j]` that is trimmed,
      everything cut off on either side is whitespace, and so a string trims
      to nothing exactly when it is all whitespace. */
  function Trim(s: string): (r: string)
    ensures IsTrimmed(r)
    ensures r == [] <==> Blank(s)
    ensures exists i, j :: 0 <= i <= j <= |s| && r == s[i..j] && Blank(s[..i]) && Blank(s[j..])
  {
    var head := TrimStart(s);
    TrimStartSpec(s);
    TrimEndSpec(head);
    var r := TrimEnd(head);
    var i := |s| - |head|;
    assert r == s[i..i + |r|];
    assert s[i + |r|..] == head[|r|..];
    assert IsTrimmed(r) by {
      if r != [] {
        assert r[0] == head[0];
      }
    }
    assert r == [] <==> Blank(s) by {
      if r == [] {
        assert head[|r|..] == head;
        assert head == [];
        assert s[..i] == s;
      } else {
        assert !IsWhitespace(s[i]);
      }
    }
    r
  }

  /** Trimming is idempotent. */
  lemma TrimTrimmed(s: string)
    requires IsTrimmed(s)
    ensures Trim(s) == s
  {
  }

  /** `s.split(',')`: the pieces between commas, left to right; an empty string
      and a string without commas give one piece. */
  function Split(s: string): (pieces: seq<string>)
    ensures |pieces| >= 1
    ensures forall i :: 0 <= i < |pieces| ==> ',' !in pieces[i]
  {
    if s == [] then [[]]
    else
      var rest := Split(s[1..]);
      if s[0] == ',' then [[]] + rest
      else [[s[0]] + rest[0]] + rest[1..]
  }

  /** Joins pieces with commas: the inverse of `Split`. */
  function Join(pieces: seq<string>): string
    requires |pieces| >= 1
  {
    if |pieces| == 1 then pieces[0] else pieces[0] + [','] + Join(pieces[1..])
  }

  /** Joining the pieces of a split gives back the string. */
  lemma {:induction false} JoinSplit(s: string)
    ensures Join(Split(s)) == s
  {
    if s != [] {
      var rest := Split(s[1..]);
      JoinSplit(s[1..]);
      if s[0] == ',' {
        assert Split(s) == [[]] + rest;
      } else {
        var pieces := Split(s);
        assert pieces == [[s[0]] + rest[0]] + rest[1..];
        if |rest| == 1 {
          assert Join(pieces) == [s[0]] + rest[0];
        } else {
          assert Join(pieces) == [s[0]] + rest[0] + [','] + Join(rest[1..]);
        }
      }
    }
  }

  /** A string without commas is a single piece. */
  lemma {:induction false} SplitNoComma(s: string)
    requires ',' !in s
    ensures Split(s) == [s]
  {
    if s != [] {
      assert ',' !in s[1..];
      SplitNoComma(s[1..]);
      assert [s[0]] + s[1..] == s;
    }
  }

  /** Splitting distributes over a comma: the pieces of `a` come first, in
      order, then those of `b`. */
  lemma {:induction false} SplitAppend(a: string, b: string)
    ensures Split(a + [','] + b) == Split(a) + Split(b)
  {
    var s := a + [','] + b;
    if a == [] {
      assert s[1..] == b;
    } else {
      assert s[1..] == a[1..] + [','] + b;
      SplitAppend(a[1..], b);
    }
  }

  /** Splitting the join of comma-free pieces gives back the pieces. */
  lemma {:induction false} SplitJoin(pieces: seq<string>)
    requires |pieces| >= 1
    requires forall i :: 0 <= i < |pieces| ==> ',' !in pieces[i]
    ensures Split(Join(pieces)) == pieces
  {
    if |pieces| == 1 {
      SplitNoComma(pieces[0]);
    } else {
      SplitNoComma(pieces[0]);
      SplitJoin(pieces[1..]);
      SplitAppend(pieces[0], Join(pieces[1..]));
    }
  }

  /** One piece after `trim` and `filter(Boolean)`: its trimmed self, or
      nothing when that is empty. */
  function CleanPiece(piece: string): (kept: seq<string>)
    ensures |kept| <= 1
    ensures kept == [] <==> Blank(piece)
    ensures !Blank(piece) ==> kept == [Trim(piece)]
    ensures forall k :: 0 <= k < |kept| ==> kept[k] != [] && IsTrimmed(kept[k])
  {
    var t := Trim(piece);
    if t == [] then [] else [t]
  }

  /** `.map(origin => origin.trim()).filter(Boolean)`: the trimmed pieces that
      are not empty, in order; every one of them is trimmed and non-empty. */
  function Clean(pieces: seq<string>): (origins: seq<string>)
    ensures |origins| <= |pieces|
    ensures forall k :: 0 <= k < |origins| ==> origins[k] != [] && IsTrimmed(origins[k])
  {
    if pieces == [] then [] else CleanPiece(pieces[0]) + Clean(pieces[1..])
  }

  /** A single piece cleans to what `CleanPiece` keeps of it; with
      `CleanAppend` this fixes `Clean` on every sequence of pieces. */
  lemma CleanSingle(piece: string)
    ensures Clean([piece]) == CleanPiece(piece)
  {
  }

  /** Cleaning distributes over concatenation: order is kept. */
  lemma {:induction false} CleanAppend(p: seq<string>, q: seq<string>)
    ensures Clean(p + q) == Clean(p) + Clean(q)
  {
    if p == [] {
      assert p + q == q;
    } else {
      assert (p + q)[0] == p[0];
      assert (p + q)[1..] == p[1..] + q;
      CleanAppend(p[1..], q);
      calc {
        Clean(p + q);
        CleanPiece(p[0]) + Clean(p[1..] + q);
        CleanPiece(p[0]) + (Clean(p[1..]) + Clean(q));
        Clean(p) + Clean(q);
      }
    }
  }

  /** `process.env.ALLOWED_ORIGINS || ""`: an unset variable reads as empty. */
  function EnvValue(env: Option<string>): (value: string)
    ensures env.None? ==> value == []
    ensures env.Some? ==> value == env.value
  {
    match env
    case None => []
    case Some(v) => v
  }

  /** Line 14: an empty value gives no origins; any other value is split,
      trimmed and filtered. */
  function ParseOrigins(value: string): (origins: seq<string>)
    ensures forall k :: 0 <= k < |origins| ==> origins[k] != [] && IsTrimmed(origins[k])
  {
    if value == [] then [] else Clean(Split(value))
  }

  /** The empty-value guard of line 14 changes nothing: splitting the empty
      string gives one empty piece, which the filter drops. */
  lemma ParseOriginsIsClean(value: string)
    ensures ParseOrigins(value) == Clean(Split(value))
  {
  }

  /** A value without commas gives its trimmed self, or nothing when that is
      empty. */
  lemma ParseOriginsNoComma(value: string)
    requires ',' !in value
    ensures ParseOrigins(value) == if Trim(value) == [] then [] else [Trim(value)]
  {
    ParseOriginsIsClean(value);
    SplitNoComma(value);
    CleanSingle(value);
  }

  /** The origins of `a,b` are those of `a` followed by those of `b`: entries
      keep their left-to-right order. With `ParseOriginsNoComma` this
      determines `ParseOrigins` on every string. */
  lemma ParseOriginsAppend(a: string, b: string)
    ensures ParseOrigins(a + [','] + b) == ParseOrigins(a) + ParseOrigins(b)
  {
    ParseOriginsIsClean(a + [','] + b);
    ParseOriginsIsClean(a);
    ParseOriginsIsClean(b);
    SplitAppend(a, b);
    CleanAppend(Split(a), Split(b));
  }

  /** Nothing but commas and whitespace. */
  predicate OnlySeparators(value: string) {
    forall k :: 0 <= k < |value| ==> value[k] == ',' || IsWhitespace(value[k])
  }

  /** A string with one more character in front is blank exactly when that
      character is whitespace and the rest is blank. */
  lemma BlankCons(c: char, x: string)
    ensures Blank([c] + x) <==> IsWhitespace(c) && Blank(x)
  {
    var s := [c] + x;
    assert s[0] == c;
    assert forall j :: 0 <= j < |x| ==> x[j] == s[j + 1];
  }

  /** The same for a value that holds only separators. */
  lemma OnlySeparatorsCons(value: string)
    requires value != []
    ensures OnlySeparators(value) <==> (value[0] == ',' || IsWhitespace(value[0])) && OnlySeparators(value[1..])
  {
  }

  /** Every piece is all whitespace. */
  predicate AllBlank(pieces: seq<string>) {
    forall i :: 0 <= i < |pieces| ==> Blank(pieces[i])
  }

  lemma AllBlankCons(piece: string, pieces: seq<string>)
    ensures AllBlank([piece] + pieces) <==> Blank(piece) && AllBlank(pieces)
  {
    var all := [piece] + pieces;
    assert all[0] == piece;
    assert forall i :: 0 <= i < |pieces| ==> pieces[i] == all[i + 1];
  }

  /** Cleaning drops every piece exactly when every piece is all whitespace. */
  lemma {:induction false} CleanEmpty(pieces: seq<string>)
    ensures Clean(pieces) == [] <==> AllBlank(pieces)
  {
    if pieces != [] {
      CleanEmpty(pieces[1..]);
      AllBlankCons(pieces[0], pieces[1..]);
      assert pieces == [pieces[0]] + pieces[1..];
    }
  }

  /** The pieces of `value` are all whitespace exactly when `value` holds only
      separators. */
  lemma {:induction false} SplitAllBlank(value: string)
    ensures AllBlank(Split(value)) <==> OnlySeparators(value)
  {
    if value != [] {
      var c, tail := value[0], value[1..];
      SplitAllBlank(tail);
      OnlySeparatorsCons(value);
      var rest := Split(tail);
      if c == ',' {
        assert Split(value) == [[]] + rest;
        AllBlankCons([], rest);
      } else {
        assert Split(value) == [[c] + rest[0]] + rest[1..];
        AllBlankCons([c] + rest[0], rest[1..]);
        AllBlankCons(rest[0], rest[1..]);
        assert rest == [rest[0]] + rest[1..];
        BlankCons(c, rest[0]);
      }
    }
  }

  /** The value yields no origins exactly when it holds nothing but commas and
      whitespace (the empty value included). */
  lemma ParseOriginsEmpty(value: string)
    ensures ParseOrigins(value) == [] <==> OnlySeparators(value)
  {
    ParseOriginsIsClean(value);
    CleanEmpty(Split(value));
    SplitAllBlank(value);
  }

  /** Lines 12-20: the allowed-origin list. The parsed list, or when it is
      empty the three localhost defaults appended to it in place. */
  method AllowedOrigins(env: Option<string>) returns (origins: seq<string>)
    ensures |origins| > 0
    ensures forall k :: 0 <= k < |origins| ==> origins[k] != [] && IsTrimmed(origins[k])
    ensures ParseOrigins(EnvValue(env)) == [] ==> origins == DEFAULT_ORIGINS
    ensures ParseOrigins(EnvValue(env)) != [] ==> origins == ParseOrigins(EnvValue(env))
  {
    origins := ParseOrigins(EnvValue(env));
    if |origins| == 0 {
      origins := origins + DEFAULT_ORIGINS;
    }
  }
}
