/**
 * The avatar initials of a resource column header:
 * `name.split(" ").map(part => part[0]).join("").toUpperCase()`.
 * The first character of an empty part is `undefined`, which `join`
 * writes as nothing, so empty parts (from doubled, leading or trailing
 * spaces) contribute no letter.  Case mapping is modelled for ASCII only.
 */
module ResourceHeader {
  import opened Sequences

  /** `s.split(" ")`: the pieces between single spaces, empty ones included. */
  function Split(s: string): (parts: seq<string>)
    ensures |parts| >= 1
    decreases |s|
  {
    if s == [] then [""]
    else if s[0] == ' ' then [""] + Split(s[1..])
    else
      var rest := Split(s[1..]);
      [[s[0]] + rest[0]] + rest[1..]
  }

  /** `parts.join(" ")`. */
  function Join(parts: seq<string>): string
    requires |parts| >= 1
    decreases |parts|
  {
    if |parts| == 1 then parts[0] else parts[0] + " " + Join(parts[1..])
  }

  /** The parts that have a first character. */
  function NonEmpty(parts: seq<string>): (r: seq<string>)
    ensures |r| <= |parts|
    ensures forall p :: p in r <==> p in parts && p != ""
    ensures forall i :: 0 <= i < |r| ==> r[i] != ""
    decreases |parts|
  {
    if parts == [] then []
    else (if parts[0] == "" then [] else [parts[0]]) + NonEmpty(parts[1..])
  }

  /** `.map(part => part[0]).join("")`. */
  function FirstChars(parts: seq<string>): string
    decreases |parts|
  {
    if parts == [] then ""
    else (if parts[0] == "" then "" else [parts[0][0]]) + FirstChars(parts[1..])
  }

  predicate IsLower(c: char) {
    'a' <= c <= 'z'
  }

  /** `toUpperCase` on one character, ASCII letters only. */
  function Upper(c: char): (u: char)
    ensures !IsLower(u)
    ensures IsLower(c) ==> u as int == c as int - 32
    ensures !IsLower(c) ==> u == c
  {
    if IsLower(c) then (c as int - 32) as char else c
  }

  function UpperString(s: string): (u: string)
    ensures |u| == |s|
    ensures forall i :: 0 <= i < |s| ==> u[i] == Upper(s[i])
  {
    seq(|s|, i requires 0 <= i < |s| => Upper(s[i]))
  }

  /** `getInitials(name)`. */
  function GetInitials(name: string): string {
    UpperString(FirstChars(Split(name)))
  }

  // ---------------------------------------------------------------------

  /** Splitting loses nothing: joining the parts with spaces gives the name back. */
  lemma {:induction false} JoinSplit(s: string)
    ensures Join(Split(s)) == s
    decreases |s|
  {
    if s != [] {
      JoinSplit(s[1..]);
      if s[0] == ' ' {
        JoinSplitAfterSpace(s);
      } else {
        JoinSplitAfterLetter(s);
      }
    }
  }

  lemma JoinSplitAfterSpace(s: string)
    requires s != [] && s[0] == ' ' && Join(Split(s[1..])) == s[1..]
    ensures Join(Split(s)) == s
  {
    var parts, rest := Split(s), Split(s[1..]);
    assert s == [s[0]] + s[1..];
    assert parts[0] == "" && parts[1..] == rest;
    assert Join(parts) == "" + " " + Join(rest);
  }

  lemma JoinSplitAfterLetter(s: string)
    requires s != [] && s[0] != ' ' && Join(Split(s[1..])) == s[1..]
    ensures Join(Split(s)) == s
  {
    var parts, rest := Split(s), Split(s[1..]);
    assert parts[0] == [s[0]] + rest[0] && parts[1..] == rest[1..];
    if |rest| == 1 {
      assert s == [s[0]] + rest[0];
    } else {
      JoinFirstPart(parts, s[0], rest);
      assert s == [s[0]] + s[1..];
    }
  }

  /** Joining after extending the first part by one character. */
  lemma JoinFirstPart(parts: seq<string>, c: char, rest: seq<string>)
    requires |rest| > 1 && |parts| == |rest|
    requires parts[0] == [c] + rest[0] && parts[1..] == rest[1..]
    ensures Join(parts) == [c] + Join(rest)
  {
    var tail := Join(rest[1..]);
    assert Join(parts) == ([c] + rest[0]) + (" " + tail);
    assert Join(rest) == rest[0] + (" " + tail);
    AppendAssociative([c], rest[0], " " + tail);
  }

  /** No part contains a space. */
  lemma {:induction false} SplitPartsHaveNoSpace(s: string)
    ensures forall p :: p in Split(s) ==> ' ' !in p
    decreases |s|
  {
    if s != [] {
      SplitPartsHaveNoSpace(s[1..]);
      var rest := Split(s[1..]);
      if s[0] != ' ' {
        assert ' ' !in rest[0];
        forall p | p in Split(s)
          ensures ' ' !in p
        {
          if p != [s[0]] + rest[0] {
            assert p in rest[1..];
          }
        }
      }
    }
  }

  /** Splitting at one more space puts the two sides' parts one after the other. */
  lemma {:induction false} SplitAtSpace(a: string, b: string)
    ensures Split(a + " " + b) == Split(a) + Split(b)
    decreases |a|
  {
    var s := a + " " + b;
    if a == [] {
      assert s == [' '] + b;
      assert s[1..] == b;
    } else {
      assert s[0] == a[0] && s[1..] == a[1..] + " " + b;
      SplitAtSpace(a[1..], b);
      var p, q := Split(a[1..]), Split(b);
      if a[0] == ' ' {
        assert Split(s) == [""] + (p + q);
        assert Split(a) == [""] + p;
        AppendAssociative([""], p, q);
      } else {
        assert (p + q)[0] == p[0] && (p + q)[1..] == p[1..] + q;
        assert Split(s) == [[a[0]] + p[0]] + (p[1..] + q);
        assert Split(a) == [[a[0]] + p[0]] + p[1..];
        AppendAssociative([[a[0]] + p[0]], p[1..], q);
      }
    }
  }

  lemma {:induction false} FirstCharsAppend(p: seq<string>, q: seq<string>)
    ensures FirstChars(p + q) == FirstChars(p) + FirstChars(q)
    decreases |p|
  {
    if p == [] {
      assert p + q == q;
    } else {
      assert (p + q)[1..] == p[1..] + q;
      FirstCharsAppend(p[1..], q);
    }
  }

  /** Initials of a name with one more space are the initials of the two sides. */
  lemma InitialsAtSpace(a: string, b: string)
    ensures GetInitials(a + " " + b) == GetInitials(a) + GetInitials(b)
  {
    SplitAtSpace(a, b);
    FirstCharsAppend(Split(a), Split(b));
  }

  /**
   * One initial per non-empty part, in order: the `i`-th is the upper-case
   * first character of the `i`-th non-empty part.
   */
  lemma {:induction false} FirstCharsOfNonEmpty(parts: seq<string>)
    ensures |FirstChars(parts)| == |NonEmpty(parts)|
    ensures forall i :: 0 <= i < |FirstChars(parts)| ==> FirstChars(parts)[i] == NonEmpty(parts)[i][0]
    decreases |parts|
  {
    if parts != [] {
      FirstCharsOfNonEmpty(parts[1..]);
    }
  }

  lemma InitialsOfParts(name: string)
    ensures |GetInitials(name)| == |NonEmpty(Split(name))|
    ensures forall i :: 0 <= i < |GetInitials(name)| ==> GetInitials(name)[i] == Upper(NonEmpty(Split(name))[i][0])
  {
    FirstCharsOfNonEmpty(Split(name));
  }

  /** The initials contain no lower-case ASCII letter. */
  lemma InitialsAreUpper(name: string)
    ensures forall c :: c in GetInitials(name) ==> !IsLower(c)
  {
  }

  /** A name without spaces gives exactly one initial: its own first letter. */
  lemma {:induction false} SingleWordInitial(name: string)
    requires name != "" && ' ' !in name
    ensures GetInitials(name) == [Upper(name[0])]
  {
    SplitOfWord(name);
    assert [name][1..] == [];
    assert FirstChars([name]) == [name[0]];
  }

  lemma {:induction false} SplitOfWord(w: string)
    requires ' ' !in w
    ensures Split(w) == [w]
    decreases |w|
  {
    if w != [] {
      SplitOfWord(w[1..]);
      assert w == [w[0]] + w[1..];
    }
  }
}
