/**
 * `getInitials(name)`: the first whitespace run of the name becomes one space,
 * the name is split at spaces, and the upper-cased first characters of the
 * first two parts are joined.
 */
module Initials {

  /** The characters the regular-expression class `\s` matches. */
  predicate IsWhitespace(c: char)
  {
    c == ' ' || c == '\t' || c == '\n' || c == '\r' || c == '\U{000B}' || c == '\U{000C}'
    || c == '\U{00A0}' || c == '\U{1680}' || ('\U{2000}' <= c <= '\U{200A}')
    || c == '\U{2028}' || c == '\U{2029}' || c == '\U{202F}' || c == '\U{205F}'
    || c == '\U{3000}' || c == '\U{FEFF}'
  }

  /** The first index at or after `i` holding whitespace, or `|s|`. */
  function WhitespaceStart(s: string, i: nat): (r: nat)
    requires i <= |s|
    decreases |s| - i
    ensures i <= r <= |s|
    ensures forall k :: i <= k < r ==> !IsWhitespace(s[k])
    ensures r < |s| ==> IsWhitespace(s[r])
  {
    if i == |s| || IsWhitespace(s[i]) then i else WhitespaceStart(s, i + 1)
  }

  /** The first index at or after `i` not holding whitespace, or `|s|`. */
  function RunEnd(s: string, i: nat): (r: nat)
    requires i <= |s|
    decreases |s| - i
    ensures i <= r <= |s|
    ensures forall k :: i <= k < r ==> IsWhitespace(s[k])
    ensures r < |s| ==> !IsWhitespace(s[r])
  {
    if i == |s| || !IsWhitespace(s[i]) then i else RunEnd(s, i + 1)
  }

  /**
   * `s.replace(/\s+/, " ")`: the leftmost, longest run of whitespace becomes
   * one space (the expression has no `g` flag, so later runs stay). A string
   * without whitespace is returned unchanged.
   */
  function ReplaceFirstWhitespaceRun(s: string): (r: string)
    ensures (forall k :: 0 <= k < |s| ==> !IsWhitespace(s[k])) ==> r == s
  {
    var i := WhitespaceStart(s, 0);
    if i == |s| then s else s[..i] + " " + s[RunEnd(s, i + 1)..]
  }

  /** `s.split(sep)`: the pieces between the separators, at least one. */
  function Split(s: string, sep: char): (parts: seq<string>)
    ensures |parts| >= 1
    ensures forall k :: 0 <= k < |parts| ==> sep !in parts[k]
  {
    if s == [] then [""]
    else
      var rest := Split(s[1..], sep);
      if s[0] == sep then [""] + rest else [[s[0]] + rest[0]] + rest[1..]
  }

  /** `parts.join(sep)`. */
  function Join(parts: seq<string>, sep: char): string
    requires |parts| >= 1
  {
    if |parts| == 1 then parts[0] else parts[0] + [sep] + Join(parts[1..], sep)
  }

  /** Joining the pieces of a split with the separator gives the string back. */
  lemma {:induction false} SplitJoin(s: string, sep: char)
    ensures Join(Split(s, sep), sep) == s
  {
    if s != [] {
      assert s == [s[0]] + s[1..];
      SplitCons(s[0], s[1..], sep);
      SplitJoin(s[1..], sep);
      JoinCons(s[0], sep, Split(s[1..], sep));
    }
  }

  /** Joining after one step of the split puts the leading character back in front. */
  lemma JoinCons(c: char, sep: char, pieces: seq<string>)
    requires |pieces| >= 1
    ensures Join(if c == sep then [""] + pieces else [[c] + pieces[0]] + pieces[1..], sep)
         == [c] + Join(pieces, sep)
  {
    if c == sep {
      assert ([""] + pieces)[1..] == pieces;
    } else {
      var parts := [[c] + pieces[0]] + pieces[1..];
      assert parts[1..] == pieces[1..];
      if |pieces| > 1 {
        assert Join(parts, sep) == ([c] + pieces[0]) + [sep] + Join(pieces[1..], sep);
      }
    }
  }

  /** Splitting around one separator splits the two sides separately. */
  lemma {:induction false} SplitAround(a: string, b: string, sep: char)
    ensures Split(a + [sep] + b, sep) == Split(a, sep) + Split(b, sep)
  {
    if a == [] {
      assert a + [sep] + b == [sep] + b;
      SplitCons(sep, b, sep);
    } else {
      var t := a[1..] + [sep] + b;
      assert a + [sep] + b == [a[0]] + t;
      assert a == [a[0]] + a[1..];
      SplitAround(a[1..], b, sep);
      SplitCons(a[0], t, sep);
      SplitCons(a[0], a[1..], sep);
      SplitMerge(a[0], sep, Split(a[1..], sep), Split(b, sep));
    }
  }

  /** One step of the split: a leading character either closes a piece or extends the first one. */
  lemma SplitCons(c: char, rest: string, sep: char)
    ensures Split([c] + rest, sep)
         == if c == sep then [""] + Split(rest, sep)
            else [[c] + Split(rest, sep)[0]] + Split(rest, sep)[1..]
  {
    assert ([c] + rest)[1..] == rest;
  }

  /** The step of `SplitCons` commutes with appending further pieces. */
  lemma SplitMerge(c: char, sep: char, pieces: seq<string>, more: seq<string>)
    requires |pieces| >= 1
    ensures (if c == sep then [""] + (pieces + more)
             else [[c] + (pieces + more)[0]] + (pieces + more)[1..])
         == (if c == sep then [""] + pieces else [[c] + pieces[0]] + pieces[1..]) + more
  {
    if c != sep {
      assert (pieces + more)[1..] == pieces[1..] + more;
    }
  }

  /** A string without the separator is a single piece. */
  lemma {:induction false} SplitWhole(a: string, sep: char)
    requires sep !in a
    ensures Split(a, sep) == [a]
  {
    if a != [] {
      SplitWhole(a[1..], sep);
      assert a == [a[0]] + a[1..];
    }
  }

  /** A string that starts with a non-separator has a first piece starting with it. */
  lemma SplitFirstPiece(s: string, sep: char)
    requires |s| > 0 && s[0] != sep
    ensures |Split(s, sep)[0]| > 0 && Split(s, sep)[0][0] == s[0]
  {
  }

  /** `toUpperCase` on one character, for the ASCII letters. */
  function ToUpper(c: char): (u: char)
    ensures 'a' <= c <= 'z' ==> 'A' <= u <= 'Z' && u as int - c as int == 'A' as int - 'a' as int
    ensures !('a' <= c <= 'z') ==> u == c
  {
    if 'a' <= c <= 'z' then (c as int - 32) as char else c
  }

  /** `v && v[0].toUpperCase()`: an empty piece stays empty. */
  function Initial(v: string): (r: string)
    ensures |r| <= 1
    ensures v == "" ==> r == ""
    ensures v != "" ==> r == [ToUpper(v[0])]
  {
    if v == "" then "" else [ToUpper(v[0])]
  }

  /** `pieces.join("")`. */
  function Concat(pieces: seq<string>): string
  {
    if pieces == [] then "" else pieces[0] + Concat(pieces[1..])
  }

  /**
   * `parts.slice(0, 2).map(v => v && v[0].toUpperCase()).join("")`: the
   * initials of the first part and, when there is one, of the second.
   */
  function FirstTwoInitials(parts: seq<string>): (r: string)
    requires |parts| >= 1
    ensures |parts| == 1 ==> r == Initial(parts[0])
    ensures |parts| >= 2 ==> r == Initial(parts[0]) + Initial(parts[1])
  {
    var firstTwo := parts[..if |parts| < 2 then |parts| else 2];
    var initials := seq(|firstTwo|, k requires 0 <= k < |firstTwo| => Initial(firstTwo[k]));
    assert Concat(initials) == if |initials| == 2 then initials[0] + initials[1] else initials[0] by {
      assert Concat(initials) == initials[0] + Concat(initials[1..]);
      if |initials| == 2 {
        assert Concat(initials[1..]) == initials[1] + Concat([]) by {
          assert initials[1..][0] == initials[1] && initials[1..][1..] == [];
        }
      } else {
        assert initials[1..] == [];
      }
    }
    Concat(initials)
  }

  /**
   * `getInitials(name)`: at most two characters, one per leading part of the
   * name.
   */
  function GetInitials(name: string): (r: string)
    ensures |r| <= 2
  {
    FirstTwoInitials(Split(ReplaceFirstWhitespaceRun(name), ' '))
  }

  /** A name is its first part, a run of whitespace, and the rest. */
  predicate Decomposed(first: string, ws: string, tail: string)
  {
    (forall k :: 0 <= k < |first| ==> !IsWhitespace(first[k]))
    && |ws| > 0 && (forall k :: 0 <= k < |ws| ==> IsWhitespace(ws[k]))
    && (|tail| > 0 ==> !IsWhitespace(tail[0]))
  }

  /** The replacement turns exactly the first whitespace run into one space. */
  lemma ReplaceDecomposed(first: string, ws: string, tail: string)
    requires Decomposed(first, ws, tail)
    ensures ReplaceFirstWhitespaceRun(first + ws + tail) == first + " " + tail
  {
    var s := first + ws + tail;
    assert forall k :: 0 <= k < |first| ==> s[k] == first[k];
    assert forall k :: 0 <= k < |ws| ==> s[|first| + k] == ws[k];
    assert forall k :: 0 <= k < |first| ==> !IsWhitespace(s[k]);
    assert forall k :: |first| <= k < |first| + |ws| ==> IsWhitespace(s[k]) by {
      forall k | |first| <= k < |first| + |ws| ensures IsWhitespace(s[k]) {
        assert s[k] == ws[k - |first|];
      }
    }
    assert |tail| > 0 ==> s[|first| + |ws|] == tail[0];
    assert IsWhitespace(s[|first|]);
    assert WhitespaceStart(s, 0) == |first|;
    assert RunEnd(s, |first| + 1) == |first| + |ws|;
    assert s[..|first|] == first && s[|first| + |ws|..] == tail;
  }

  /**
   * A name made of a first word, whitespace and a second word has the
   * upper-cased first letters of the two words as initials, whatever follows.
   */
  lemma TwoWordInitials(first: string, ws: string, tail: string)
    requires Decomposed(first, ws, tail) && |first| > 0 && |tail| > 0
    ensures GetInitials(first + ws + tail) == [ToUpper(first[0]), ToUpper(tail[0])]
  {
    ReplaceDecomposed(first, ws, tail);
    assert ' ' !in first by {
      forall k | 0 <= k < |first| ensures first[k] != ' ' {
        assert !IsWhitespace(first[k]);
      }
    }
    SplitAround(first, tail, ' ');
    assert first + " " + tail == first + [' '] + tail;
    SplitWhole(first, ' ');
    SplitFirstPiece(tail, ' ');
  }

  /**
   * A name that starts with whitespace has an empty first part, so it gets
   * one initial only: that of its first word.
   */
  lemma LeadingWhitespaceInitials(ws: string, tail: string)
    requires Decomposed("", ws, tail) && |tail| > 0
    ensures GetInitials(ws + tail) == [ToUpper(tail[0])]
  {
    ReplaceDecomposed("", ws, tail);
    assert "" + ws + tail == ws + tail;
    assert "" + " " + tail == [' '] + tail;
    assert ([' '] + tail)[1..] == tail;
    SplitFirstPiece(tail, ' ');
  }

  /** A one-word name has one initial: its first letter, upper-cased. */
  lemma OneWordInitials(name: string)
    requires |name| > 0 && forall k :: 0 <= k < |name| ==> !IsWhitespace(name[k])
    ensures GetInitials(name) == [ToUpper(name[0])]
  {
    assert ' ' !in name by {
      forall k | 0 <= k < |name| ensures name[k] != ' ' {
        assert !IsWhitespace(name[k]);
      }
    }
    SplitWhole(name, ' ');
  }

  /** A word followed only by whitespace has the word's initial alone. */
  lemma TrailingWhitespaceInitials(first: string, ws: string)
    requires Decomposed(first, ws, "") && |first| > 0
    ensures GetInitials(first + ws) == [ToUpper(first[0])]
  {
    ReplaceDecomposed(first, ws, "");
    assert first + ws + "" == first + ws;
    assert ' ' !in first by {
      forall k | 0 <= k < |first| ensures first[k] != ' ' {
        assert !IsWhitespace(first[k]);
      }
    }
    assert first + " " + "" == first + [' '] + "";
    SplitAround(first, "", ' ');
    SplitWhole(first, ' ');
    assert Split("", ' ') == [""];
  }

  /** A name made only of whitespace has no initials: both parts are empty. */
  lemma WhitespaceNameInitials(ws: string)
    requires Decomposed("", ws, "")
    ensures GetInitials(ws) == ""
  {
    ReplaceDecomposed("", ws, "");
    assert "" + ws + "" == ws;
    assert "" + " " + "" == "" + [' '] + "";
    SplitAround("", "", ' ');
    assert Split("", ' ') == [""];
  }

  /** The empty name has no initials. */
  lemma EmptyNameInitials()
    ensures GetInitials("") == ""
  {
    assert Split("", ' ') == [""];
  }
}
