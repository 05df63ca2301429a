/** The two string operations the dispatcher relies on: lower-casing
    (`String.prototype.toLowerCase`, restricted to ASCII letters) and splitting on a
    separator character (`String.prototype.split` with a one-character separator),
    together with the sender's first name built from them. */
module Text {

  predicate IsUpper(c: char) {
    'A' <= c <= 'Z'
  }

  /** ASCII case folding of one character; every other character is left as it is. */
  function LowerChar(c: char): (r: char)
    ensures !IsUpper(r)
    ensures IsUpper(c) ==> r as int == c as int + 32
    ensures !IsUpper(c) ==> r == c
  {
    if IsUpper(c) then (c as int + 32) as char else c
  }

  /** `s.toLowerCase()`: the same length, each character folded on its own. */
  function Lower(s: string): (r: string)
    ensures |r| == |s|
    ensures forall i :: 0 <= i < |s| ==> r[i] == LowerChar(s[i])
    ensures forall i :: 0 <= i < |r| ==> !IsUpper(r[i])
  {
    if s == [] then [] else [LowerChar(s[0])] + Lower(s[1..])
  }

  /** Lower-casing twice gives what lower-casing once gives. */
  lemma {:induction false} LowerIdempotent(s: string)
    ensures Lower(Lower(s)) == Lower(s)
  {
    if s != [] {
      LowerIdempotent(s[1..]);
      assert Lower(s) == [LowerChar(s[0])] + Lower(s[1..]);
      assert Lower(s)[1..] == Lower(s[1..]);
    }
  }

  /** A text lower-cases to the one-letter key `[c]` exactly when it is that letter
      in either case. */
  lemma LowerIsLetter(s: string, c: char)
    requires 'a' <= c <= 'z'
    ensures Lower(s) == [c] <==> s == [c] || s == [(c as int - 32) as char]
  {
    if Lower(s) == [c] {
      assert |s| == 1 && LowerChar(s[0]) == c;
      assert s == [s[0]];
    }
    if s == [c] || s == [(c as int - 32) as char] {
      assert |Lower(s)| == 1 && Lower(s)[0] == c;
    }
  }

  /** `s.split([sep])`: the pieces between occurrences of `sep`, in order. There is
      always at least one piece; the first is the prefix of `s` up to the first `sep`. */
  function Split(s: string, sep: char): (pieces: seq<string>)
    ensures |pieces| >= 1
    ensures forall i :: 0 <= i < |pieces| ==> sep !in pieces[i]
    ensures pieces[0] <= s
    ensures |pieces[0]| < |s| ==> s[|pieces[0]|] == sep
  {
    if s == [] then [""]
    else
      var rest := Split(s[1..], sep);
      if s[0] == sep then [""] + rest
      else [[s[0]] + rest[0]] + rest[1..]
  }

  /** `pieces.join(sep)`, the inverse of `Split`. */
  function Join(pieces: seq<string>, sep: char): string
  {
    if |pieces| == 0 then ""
    else if |pieces| == 1 then pieces[0]
    else pieces[0] + [sep] + Join(pieces[1..], sep)
  }

  /** Joining the pieces of a split gives back the original text. */
  lemma {:induction false} JoinSplit(s: string, sep: char)
    ensures Join(Split(s, sep), sep) == s
  {
    if s != [] {
      var rest := Split(s[1..], sep);
      JoinSplit(s[1..], sep);
      if s[0] == sep {
        assert Split(s, sep) == [""] + rest;
        assert ([""] + rest)[1..] == rest;
        assert s == [sep] + s[1..];
      } else {
        var head := [s[0]] + rest[0];
        assert Split(s, sep) == [head] + rest[1..];
        if |rest| == 1 {
          assert Join(rest, sep) == rest[0];
        } else {
          assert Join(rest, sep) == rest[0] + [sep] + Join(rest[1..], sep);
          assert ([head] + rest[1..])[1..] == rest[1..];
        }
        assert s == [s[0]] + s[1..];
      }
    }
  }

  /** Splitting a text `p + t` whose prefix `p` has no separator extends the first
      piece of `t`'s split by `p`. */
  lemma {:induction false} SplitSeparatorFreePrefix(p: string, t: string, sep: char)
    requires sep !in p
    ensures Split(p + t, sep) == [p + Split(t, sep)[0]] + Split(t, sep)[1..]
  {
    if p != [] {
      var pieces := Split(t, sep);
      var q := p + t;
      assert q[1..] == p[1..] + t;
      assert q[0] == p[0] && q[0] != sep;
      SplitSeparatorFreePrefix(p[1..], t, sep);
      var rest := Split(q[1..], sep);
      assert rest == [p[1..] + pieces[0]] + pieces[1..];
      assert Split(q, sep) == [[p[0]] + rest[0]] + rest[1..];
      assert rest[0] == p[1..] + pieces[0] && rest[1..] == pieces[1..];
      assert [p[0]] + (p[1..] + pieces[0]) == p + pieces[0];
    } else {
      var pieces := Split(t, sep);
      assert p + t == t && p + pieces[0] == pieces[0];
      assert pieces == [pieces[0]] + pieces[1..];
    }
  }

  /** Splitting the join of separator-free pieces gives back the pieces. */
  lemma {:induction false} SplitJoin(pieces: seq<string>, sep: char)
    requires |pieces| >= 1
    requires forall i :: 0 <= i < |pieces| ==> sep !in pieces[i]
    ensures Split(Join(pieces, sep), sep) == pieces
  {
    var p := pieces[0];
    if |pieces| == 1 {
      SplitSeparatorFreePrefix(p, "", sep);
      assert p + "" == p;
    } else {
      var t := Join(pieces[1..], sep);
      SplitJoin(pieces[1..], sep);
      assert Split([sep] + t, sep) == [""] + Split(t, sep);
      SplitSeparatorFreePrefix(p, [sep] + t, sep);
      assert p + [sep] + t == p + ([sep] + t);
      assert ([""] + Split(t, sep))[1..] == pieces[1..];
      assert p + "" == p;
    }
  }

  /** `from.name.split(' ')[0]`: the sender's name up to its first space. */
  function FirstName(name: string): (first: string)
    ensures first <= name
    ensures ' ' !in first
    ensures |first| < |name| ==> name[|first|] == ' '
  {
    Split(name, ' ')[0]
  }

  /** The first name is the only prefix of the name that has no space and ends at a
      space or at the end of the name; so it is the whole name when the name has no
      space, and empty when the name starts with a space. */
  lemma FirstNameUnique(name: string, p: string)
    requires p <= name
    requires ' ' !in p
    requires |p| < |name| ==> name[|p|] == ' '
    ensures p == FirstName(name)
  {
  }

  lemma FirstNameCases(name: string)
    ensures ' ' !in name ==> FirstName(name) == name
    ensures |name| > 0 && name[0] == ' ' ==> FirstName(name) == ""
  {
    if ' ' !in name {
      FirstNameUnique(name, name);
    }
    if |name| > 0 && name[0] == ' ' {
      FirstNameUnique(name, "");
    }
  }
}
