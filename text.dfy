/** String helpers the application applies to note text: JavaScript's `trim`,
    ASCII lower-casing, substring search, the `<[^>]*>` tag-stripping replace,
    preview truncation and `split(',')`. */
module Text {

  /** JavaScript's WhiteSpace and LineTerminator code points, the set `String.prototype.trim` removes. */
  predicate IsSpace(c: char)
  {
    c == ' ' || c == '\t' || c == '\n' || c == '\r' || c == '\U{0B}' || c == '\U{0C}'
    || c == '\U{A0}' || c == '\U{1680}' || ('\U{2000}' <= c <= '\U{200A}')
    || c == '\U{2028}' || c == '\U{2029}' || c == '\U{202F}' || c == '\U{205F}'
    || c == '\U{3000}' || c == '\U{FEFF}'
  }

  predicate Blank(s: string)
  {
    forall i :: 0 <= i < |s| ==> IsSpace(s[i])
  }

  /** `s` with its leading white space removed: a suffix of `s`. */
  function TrimStart(s: string): (r: string)
    ensures |r| <= |s| && r == s[|s| - |r|..]
    ensures r != [] ==> !IsSpace(r[0])
    ensures Blank(s[..|s| - |r|])
  {
    if s != [] && IsSpace(s[0]) then TrimStart(s[1..]) else s
  }

  /** `s` with its trailing white space removed: a prefix of `s`. */
  function TrimEnd(s: string): (r: string)
    ensures |r| <= |s| && r == s[..|r|]
    ensures r != [] ==> !IsSpace(r[|r| - 1])
    ensures Blank(s[|r|..])
  {
    if s != [] && IsSpace(s[|s| - 1]) then TrimEnd(s[..|s| - 1]) else s
  }

  /** `String.prototype.trim`. */
  function Trim(s: string): string
  {
    TrimEnd(TrimStart(s))
  }

  /** A string trims to the empty string exactly when it is all white space. */
  lemma TrimEmptyIffBlank(s: string)
    ensures Trim(s) == "" <==> Blank(s)
  {
    var t := TrimStart(s);
    if Trim(s) == "" {
      assert t[0..] == t;
      assert t == [];
      assert s[..|s|] == s;
    } else {
      assert t != [] && !IsSpace(t[0]);
      assert s[|s| - |t|] == t[0];
    }
  }

  /** A string with no white space at either end is left unchanged by `Trim`. */
  lemma TrimOfTrimmed(s: string)
    requires s != [] ==> !IsSpace(s[0]) && !IsSpace(s[|s| - 1])
    ensures Trim(s) == s
  {
  }

  /** A trimmed string starts and ends with a character that is not white space. */
  lemma TrimEnds(s: string)
    ensures Trim(s) != [] ==> !IsSpace(Trim(s)[0]) && !IsSpace(Trim(s)[|Trim(s)| - 1])
  {
    var u := TrimStart(s);
    var t := TrimEnd(u);
    if t != [] {
      assert t[0] == u[0];
    }
  }

  /** ASCII lower-casing of one character. */
  function LowerChar(c: char): char
  {
    if 'A' <= c <= 'Z' then (c as int + 32) as char else c
  }

  /** ASCII lower-casing, the model of `toLowerCase`. */
  function Lower(s: string): string
  {
    seq(|s|, i requires 0 <= i < |s| => LowerChar(s[i]))
  }

  /** `s.includes(sub)`: `sub` occurs in `s` at some position (the empty string occurs everywhere). */
  predicate Contains(s: string, sub: string)
  {
    exists i :: 0 <= i <= |s| && sub <= s[i..]
  }

  /** `s.trim().toLowerCase()`: how tags are normalised by the editor and by the tag-suggestion parser. */
  function NormalizeTag(s: string): string
  {
    Lower(Trim(s))
  }

  /** Lower-casing keeps the length, never touches white space, and is idempotent. */
  lemma LowerProperties(s: string)
    ensures |Lower(s)| == |s|
    ensures forall i :: 0 <= i < |s| ==> (IsSpace(Lower(s)[i]) <==> IsSpace(s[i]))
    ensures forall i :: 0 <= i < |s| ==> !('A' <= Lower(s)[i] <= 'Z')
    ensures Lower(Lower(s)) == Lower(s)
  {
  }

  /** Lower-casing a string with no white space at either end leaves nothing for `Trim` to remove. */
  lemma LowerKeepsTrimmed(t: string)
    requires t != [] ==> !IsSpace(t[0]) && !IsSpace(t[|t| - 1])
    ensures Trim(Lower(t)) == Lower(t)
  {
    LowerProperties(t);
    TrimOfTrimmed(Lower(t));
  }

  /** A normalised tag is trimmed and lower-case, so normalising it again changes nothing. */
  lemma NormalizeTagIdempotent(s: string)
    ensures NormalizeTag(NormalizeTag(s)) == NormalizeTag(s)
  {
    var t := Trim(s);
    LowerProperties(t);
    TrimEnds(s);
    LowerKeepsTrimmed(t);
  }

  /** A normalised tag holds no upper-case ASCII letter. */
  lemma NormalizeTagLowerCase(s: string)
    ensures forall i :: 0 <= i < |NormalizeTag(s)| ==> !('A' <= NormalizeTag(s)[i] <= 'Z')
  {
    LowerProperties(Trim(s));
  }

  /** Index of the first occurrence of `c` in `s`. */
  function IndexOf(s: string, c: char): (r: nat)
    requires c in s
    ensures r < |s| && s[r] == c
    ensures forall k :: 0 <= k < r ==> s[k] != c
  {
    if s[0] == c then 0 else 1 + IndexOf(s[1..], c)
  }

  /** `s.replace(/<[^>]*>/g, '')`. Scanning left to right, a `<` that has a `>` somewhere after it
      starts a match running to the first such `>`, and the whole match is dropped; any other
      character (including a `<` with no `>` after it) is kept. */
  function StripTags(s: string): (r: string)
    ensures |r| <= |s|
    ensures forall c :: c in r ==> c in s
    ensures '<' !in s ==> r == s
    decreases |s|
  {
    if s == [] then []
    else if s[0] == '<' && '>' in s then StripTags(s[IndexOf(s, '>') + 1..])
    else
      assert s == [s[0]] + s[1..];
      [s[0]] + StripTags(s[1..])
  }

  /** A character other than `<` is kept in front of the stripped rest. */
  lemma StripTagsCons(c: char, rest: string)
    requires c != '<'
    ensures StripTags([c] + rest) == [c] + StripTags(rest)
  {
    assert ([c] + rest)[1..] == rest;
  }

  /** Text before the first `<` survives stripping unchanged. */
  lemma {:induction false} StripTagsKeepsText(a: string, b: string)
    requires '<' !in a
    ensures StripTags(a + b) == a + StripTags(b)
    decreases |a|
  {
    if a == [] {
      assert a + b == b;
    } else {
      var c, t := a[0], a[1..];
      assert a + b == [c] + (t + b);
      calc {
        StripTags(a + b);
      == { StripTagsCons(c, t + b); }
        [c] + StripTags(t + b);
      == { StripTagsKeepsText(t, b); }
        [c] + (t + StripTags(b));
      == { assert a == [c] + t; }
        a + StripTags(b);
      }
    }
  }

  /** A whole tag `<...>` is removed, and stripping resumes right after its `>`. */
  lemma StripTagsDropsTag(t: string, b: string)
    requires '>' !in t
    ensures StripTags("<" + t + ">" + b) == StripTags(b)
  {
    var s := "<" + t + ">" + b;
    assert s[|t| + 1] == '>';
    assert IndexOf(s, '>') == |t| + 1 by {
      forall i | 0 <= i < |t| + 1 ensures s[i] != '>' {
        if i > 0 { assert s[i] == t[i - 1]; }
      }
    }
    assert s[|t| + 2..] == b;
  }

  /** No `<` is followed, anywhere later, by a `>`: the regex `<[^>]*>` finds nothing. */
  predicate TagFree(s: string)
  {
    forall i, j :: 0 <= i < j < |s| && s[i] == '<' ==> s[j] != '>'
  }

  /** A character in front of tag-free text keeps it tag-free unless it opens a tag that the text closes. */
  lemma TagFreeCons(c: char, rest: string)
    requires TagFree(rest) && (c == '<' ==> '>' !in rest)
    ensures TagFree([c] + rest)
  {
    var r := [c] + rest;
    forall i, j | 0 <= i < j < |r| && r[i] == '<' ensures r[j] != '>' {
      assert r[j] == rest[j - 1];
      if i == 0 {
        assert rest[j - 1] in rest;
      } else {
        assert r[i] == rest[i - 1];
      }
    }
  }

  /** Stripping leaves no tag behind. */
  lemma {:induction false} StripTagsIsTagFree(s: string)
    ensures TagFree(StripTags(s))
    decreases |s|
  {
    if s == [] {
    } else if s[0] == '<' && '>' in s {
      StripTagsIsTagFree(s[IndexOf(s, '>') + 1..]);
    } else {
      var rest := StripTags(s[1..]);
      StripTagsIsTagFree(s[1..]);
      TagFreeCons(s[0], rest);
    }
  }

  /** Text with no tag in it is left unchanged. */
  lemma {:induction false} StripTagsOfTagFree(s: string)
    requires TagFree(s)
    ensures StripTags(s) == s
    decreases |s|
  {
    if s != [] {
      assert s[0] == '<' ==> '>' !in s by {
        if s[0] == '<' {
          forall j | 0 <= j < |s| ensures s[j] != '>' {
            if j > 0 {
              assert !(s[0] == '<' && s[j] == '>');
            }
          }
        }
      }
      assert TagFree(s[1..]) by {
        forall i, j | 0 <= i < j < |s[1..]| && s[1..][i] == '<' ensures s[1..][j] != '>' {
          assert s[i + 1] == '<';
        }
      }
      StripTagsOfTagFree(s[1..]);
    }
  }

  /** Stripping twice is the same as stripping once. */
  lemma StripTagsIdempotent(s: string)
    ensures StripTags(StripTags(s)) == StripTags(s)
  {
    StripTagsIsTagFree(s);
    StripTagsOfTagFree(StripTags(s));
  }

  /** `s.length > max ? s.substring(0, max) + '...' : s`; `substring` clamps a negative bound to 0. */
  function Truncate(s: string, max: int): (r: string)
    ensures |s| <= max ==> r == s
    ensures |s| > max && max >= 0 ==> |r| == max + 3 && r[..max] == s[..max] && r[max..] == "..."
    ensures |s| > max && max < 0 ==> r == "..."
  {
    if |s| > max then s[..if max < 0 then 0 else max] + "..." else s
  }

  /** Number of occurrences of `c` in `s`. */
  function Count(s: string, c: char): nat
  {
    if s == [] then 0 else (if s[0] == c then 1 else 0) + Count(s[1..], c)
  }

  /** `s.split(sep)` for a one-character separator: the fields between separators, always at least one. */
  function Split(s: string, sep: char): (r: seq<string>)
    ensures |r| >= 1
  {
    if s == [] then [""]
    else
      var rest := Split(s[1..], sep);
      if s[0] == sep then [""] + rest else [[s[0]] + rest[0]] + rest[1..]
  }

  /** `parts.join(sep)`. */
  function Join(parts: seq<string>, sep: char): string
    requires |parts| >= 1
  {
    if |parts| == 1 then parts[0] else parts[0] + [sep] + Join(parts[1..], sep)
  }

  /** `split` yields one field more than there are separators, no field holds a separator,
      and joining the fields back with the separator gives the original text. */
  lemma {:induction false} SplitJoin(s: string, sep: char)
    ensures |Split(s, sep)| == Count(s, sep) + 1
    ensures forall i :: 0 <= i < |Split(s, sep)| ==> sep !in Split(s, sep)[i]
    ensures Join(Split(s, sep), sep) == s
  {
    if s != [] {
      SplitJoin(s[1..], sep);
      var rest := Split(s[1..], sep);
      if s[0] == sep {
        assert ([""] + rest)[1..] == rest;
        assert s == [sep] + s[1..];
      } else {
        var r := [[s[0]] + rest[0]] + rest[1..];
        assert r[1..] == rest[1..];
        assert s == [s[0]] + s[1..];
        if |rest| == 1 {
          assert s[1..] == rest[0];
        } else {
          assert Join(rest, sep) == rest[0] + [sep] + Join(rest[1..], sep);
        }
      }
    }
  }

  /** The first field of `split` is the text before the first separator, or all of it. */
  lemma {:induction false} SplitFirstField(s: string, sep: char)
    ensures var f := Split(s, sep)[0];
      f <= s && sep !in f && (|f| < |s| ==> s[|f|] == sep)
  {
    if s != [] && s[0] != sep {
      SplitFirstField(s[1..], sep);
      var g := Split(s[1..], sep)[0];
      assert Split(s, sep)[0] == [s[0]] + g;
      assert s == [s[0]] + s[1..];
    }
  }
}
