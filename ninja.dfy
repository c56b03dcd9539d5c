/** Escaping of file names for the ninja build files the build steps write:
    a space, a colon and a dollar sign are each preceded by `$`, every other
    character is kept. `Tokens` reads a space-separated list of escaped names
    back, as ninja's lexer reads the paths of a `build` line. */
module Ninja {
  import opened Wrappers
  import opened Strings

  /** The characters that are escaped. */
  predicate Special(c: char) {
    c == ' ' || c == ':' || c == '$'
  }

  function EscapeChar(c: char): (r: string)
    ensures Special(c) ==> r == ['$', c]
    ensures !Special(c) ==> r == [c]
  {
    if Special(c) then ['$', c] else [c]
  }

  /** The escaping of one name, character by character. */
  function Escape(s: string): (r: string)
    ensures |r| >= |s|
    decreases |s|
  {
    if s == [] then [] else EscapeChar(s[0]) + Escape(s[1..])
  }

  function EscapeAll(names: seq<string>): (r: seq<string>)
    ensures |r| == |names|
    ensures forall i :: 0 <= i < |names| ==> r[i] == Escape(names[i])
  {
    if names == [] then [] else [Escape(names[0])] + EscapeAll(names[1..])
  }

  /** Characters that end a path in ninja and that `Escape` leaves as they
      are, so they must not occur in a name. */
  predicate Terminator(c: char) {
    c == '|' || c == '\n' || c == '\r'
  }

  predicate Plain(name: string) {
    forall i :: 0 <= i < |name| ==> !Terminator(name[i])
  }

  function PrependChar(c: char, ts: Option<seq<string>>): (r: Option<seq<string>>)
    requires ts.Some? ==> |ts.value| >= 1
    ensures r.Some? <==> ts.Some?
    ensures r.Some? ==> |r.value| == |ts.value|
  {
    match ts
    case None => None
    case Some(t) => Some([[c] + t[0]] + t[1..])
  }

  /** A space-separated list of paths: an unescaped space separates, `$`
      followed by a special character stands for that character; an
      unescaped colon, a path terminator or any other `$` sequence is not
      part of a path list and is rejected. */
  function Tokens(s: string): (r: Option<seq<string>>)
    ensures r.Some? ==> |r.value| >= 1
    decreases |s|
  {
    if s == [] then Some([""])
    else if s[0] == '$' then
      if |s| >= 2 && Special(s[1]) then PrependChar(s[1], Tokens(s[2..])) else None
    else if s[0] == ' ' then
      match Tokens(s[1..])
      case None => None
      case Some(t) => Some([""] + t)
    else if s[0] == ':' || Terminator(s[0]) then None
    else PrependChar(s[0], Tokens(s[1..]))
  }

  function PrependString(a: string, ts: Option<seq<string>>): (r: Option<seq<string>>)
    requires ts.Some? ==> |ts.value| >= 1
  {
    match ts
    case None => None
    case Some(t) => Some([a + t[0]] + t[1..])
  }

  /** One escaped character is read back as itself. */
  lemma TokensEscapeChar(c: char, tail: string)
    requires !Terminator(c)
    ensures Tokens(EscapeChar(c) + tail) == PrependChar(c, Tokens(tail))
  {
    var s := EscapeChar(c) + tail;
    if Special(c) {
      assert s[0] == '$' && s[1] == c && s[2..] == tail;
    } else {
      assert s[0] == c && s[1..] == tail;
    }
  }

  lemma PrependCharString(c: char, a: string, ts: Option<seq<string>>)
    requires ts.Some? ==> |ts.value| >= 1
    ensures PrependChar(c, PrependString(a, ts)) == PrependString([c] + a, ts)
  {
    match ts {
      case None =>
      case Some(t) => assert [c] + (a + t[0]) == ([c] + a) + t[0];
    }
  }

  /** Reading an escaped name puts the name in front of what follows it. */
  lemma {:induction false} TokensEscape(a: string, rest: string)
    requires Plain(a)
    ensures Tokens(Escape(a) + rest) == PrependString(a, Tokens(rest))
    decreases |a|
  {
    if a == [] {
      assert Escape(a) + rest == rest;
      match Tokens(rest) {
        case None =>
        case Some(t) =>
          assert a + t[0] == t[0];
          assert [t[0]] + t[1..] == t;
      }
    } else {
      var tail := Escape(a[1..]) + rest;
      assert Escape(a) + rest == EscapeChar(a[0]) + tail;
      TokensEscapeChar(a[0], tail);
      TokensEscape(a[1..], rest);
      PrependCharString(a[0], a[1..], Tokens(rest));
      assert [a[0]] + a[1..] == a;
    }
  }

  /** A list written by joining escaped names with spaces reads back as
      exactly those names, in order. */
  lemma {:induction false} TokensJoin(names: seq<string>)
    requires |names| >= 1
    requires forall i :: 0 <= i < |names| ==> Plain(names[i])
    ensures Tokens(Join(EscapeAll(names), " ")) == Some(names)
    decreases |names|
  {
    var e := EscapeAll(names);
    if |names| == 1 {
      assert Join(e, " ") == Escape(names[0]) + "";
      TokensOne(names[0]);
      assert names == [names[0]];
    } else {
      var tail := names[1..];
      assert e[1..] == EscapeAll(tail);
      TokensJoin(tail);
      JoinCons(e, " ");
      TokensStep(names[0], Join(EscapeAll(tail), " "), tail);
      assert [names[0]] + tail == names;
    }
  }

  /** A name alone reads back as itself. */
  lemma TokensOne(name: string)
    requires Plain(name)
    ensures Tokens(Escape(name) + "") == Some([name])
  {
    TokensEscape(name, "");
    var t: seq<string> := [""];
    assert Tokens("") == Some(t);
    assert name + t[0] == name && t[1..] == [];
    assert [name + t[0]] + t[1..] == [name];
  }

  /** A name, a space and a list that reads back as `names`. */
  lemma TokensStep(name: string, rest: string, names: seq<string>)
    requires Plain(name) && Tokens(rest) == Some(names)
    ensures Tokens(Escape(name) + (" " + rest)) == Some([name] + names)
  {
    TokensEscape(name, " " + rest);
    assert (" " + rest)[0] == ' ' && (" " + rest)[1..] == rest;
    var t := [""] + names;
    assert Tokens(" " + rest) == Some(t);
    assert t[0] == "" && t[1..] == names;
    assert name + t[0] == name;
  }

  /** One name round-trips on its own; so escaping is injective. */
  lemma EscapeInjective(a: string, b: string)
    requires Plain(a) && Plain(b)
    requires Escape(a) == Escape(b)
    ensures a == b
  {
    TokensJoin([a]);
    TokensJoin([b]);
  }

  /** A name with no special character is written as it is. */
  lemma {:induction false} EscapeOrdinary(s: string)
    requires forall i :: 0 <= i < |s| ==> !Special(s[i])
    ensures Escape(s) == s
    decreases |s|
  {
    if s != [] {
      EscapeOrdinary(s[1..]);
      assert [s[0]] + s[1..] == s;
    }
  }

  // ---------------------------------------------------------------------
  // Listing a set

  /** `listing` holds each element of `names` exactly once, in some order. */
  predicate Enumerates(listing: seq<string>, names: set<string>) {
    && (forall i, j :: 0 <= i < j < |listing| ==> listing[i] != listing[j])
    && (forall t :: t in names ==> t in listing)
    && (forall i :: 0 <= i < |listing| ==> listing[i] in names)
  }

  lemma {:induction false} DistinctCard(listing: seq<string>, names: set<string>)
    requires Enumerates(listing, names)
    ensures |listing| == |names|
    decreases |listing|
  {
    if listing != [] {
      var rest := names - {listing[0]};
      assert Enumerates(listing[1..], rest) by {
        forall t
          ensures t in rest <==> t in listing[1..]
        {
          if t in listing[1..] {
            var j :| 0 <= j < |listing[1..]| && listing[1..][j] == t;
            assert listing[j + 1] == t;
          }
          if t in names && t != listing[0] {
            var j :| 0 <= j < |listing| && listing[j] == t;
            assert listing[1..][j - 1] == t;
          }
        }
      }
      DistinctCard(listing[1..], rest);
    } else {
      assert forall t :: t !in names;
      assert names == {};
    }
  }
}
