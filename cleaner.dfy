/** Text cleaning of `utils/cleaner.py`: the three normalisers `clean_text`,
    `clean_caption` and `clean_amenity`, each a pure function of its input.
    A Python value that is not a `str` is modelled as `None`. */
module Cleaner {
  import opened Wrappers

  /** Python's `str.isspace()`: the characters that `\s`, `str.split()` and
      `str.strip()` treat as whitespace. */
  predicate IsSpace(c: char) {
    var n := c as int;
    (9 <= n <= 13) || (28 <= n <= 32) || n == 0x85 || n == 0xA0 || n == 0x1680
    || (0x2000 <= n <= 0x200A) || n == 0x2028 || n == 0x2029 || n == 0x202F
    || n == 0x205F || n == 0x3000
  }

  predicate IsUpper(c: char) { 'A' <= c <= 'Z' }

  predicate IsLetter(c: char) { 'a' <= c <= 'z' || IsUpper(c) }

  predicate IsDigit(c: char) { '0' <= c <= '9' }

  /** The punctuation that survives cleaning: `. , " ' ? !`. */
  predicate IsPunct(c: char) {
    c == '.' || c == ',' || c == '"' || c == '\'' || c == '?' || c == '!'
  }

  /** A character the first substitution keeps: an ASCII letter or digit,
      whitespace, or one of the kept punctuation marks. */
  predicate Allowed(c: char) {
    IsLetter(c) || IsDigit(c) || IsSpace(c) || IsPunct(c)
  }

  /** A character that may appear inside a word of cleaned text. */
  predicate WordChar(c: char) {
    IsLetter(c) || IsDigit(c) || IsPunct(c)
  }

  /** The first substitution: every character that is not allowed becomes a
      space. */
  function ReplaceDisallowed(s: string): (r: string)
    ensures |r| == |s|
    ensures forall i :: 0 <= i < |r| ==> Allowed(r[i])
    ensures forall i :: 0 <= i < |s| && Allowed(s[i]) ==> r[i] == s[i]
    ensures forall i :: 0 <= i < |s| && !Allowed(s[i]) ==> r[i] == ' '
  {
    if s == [] then [] else [if Allowed(s[0]) then s[0] else ' '] + ReplaceDisallowed(s[1..])
  }

  /** The second substitution, applied to the output of `ReplaceDisallowed`,
      where a character that is neither a word character nor whitespace is
      exactly `IsPunct`: a left-to-right scan that replaces each (whitespace,
      punctuation) pair by the punctuation. */
  function SubSpaceBeforePunct(s: string): string
    decreases |s|
  {
    if |s| >= 2 && IsSpace(s[0]) && IsPunct(s[1]) then [s[1]] + SubSpaceBeforePunct(s[2..])
    else if s == [] then []
    else [s[0]] + SubSpaceBeforePunct(s[1..])
  }

  /** Reference definition: keep every character except a whitespace
      character immediately followed by a punctuation character. */
  function DropSpaceBeforePunct(s: string): string
    decreases |s|
  {
    if s == [] then []
    else (if |s| >= 2 && IsSpace(s[0]) && IsPunct(s[1]) then [] else [s[0]]) + DropSpaceBeforePunct(s[1..])
  }

  /** The regex scan deletes exactly one whitespace character before each
      punctuation character and nothing else. */
  lemma {:induction false} SubSpaceBeforePunctDrops(s: string)
    ensures SubSpaceBeforePunct(s) == DropSpaceBeforePunct(s)
    decreases |s|
  {
    if |s| >= 2 && IsSpace(s[0]) && IsPunct(s[1]) {
      SubSpaceBeforePunctDrops(s[2..]);
      assert s[1..][1..] == s[2..];
    } else if s != [] {
      SubSpaceBeforePunctDrops(s[1..]);
    }
  }

  /** Every character the scan emits comes from its input. */
  lemma {:induction false} SubSpaceBeforePunctChars(s: string)
    ensures forall c :: c in SubSpaceBeforePunct(s) ==> c in s
    decreases |s|
  {
    if |s| >= 2 && IsSpace(s[0]) && IsPunct(s[1]) {
      SubSpaceBeforePunctChars(s[2..]);
      assert forall c :: c in s[2..] ==> c in s;
    } else if s != [] {
      SubSpaceBeforePunctChars(s[1..]);
      assert forall c :: c in s[1..] ==> c in s;
    }
  }

  /** Text made only of allowed characters passes the first substitution unchanged. */
  lemma {:induction false} ReplaceDisallowedKeeps(s: string)
    requires AllAllowed(s)
    ensures ReplaceDisallowed(s) == s
    decreases |s|
  {
    if s != [] {
      SuffixAllowed(s, 1);
      ReplaceDisallowedKeeps(s[1..]);
    }
  }

  /** Text without punctuation passes the second substitution unchanged. */
  lemma {:induction false} SubSpaceBeforePunctNoPunct(s: string)
    requires forall i :: 0 <= i < |s| ==> !IsPunct(s[i])
    ensures SubSpaceBeforePunct(s) == s
    decreases |s|
  {
    if s != [] {
      assert forall i :: 0 <= i < |s[1..]| ==> s[1..][i] == s[i + 1];
      SubSpaceBeforePunctNoPunct(s[1..]);
    }
  }

  /** No match of the second substitution straddles a boundary that follows a
      non-whitespace character. */
  lemma {:induction false} SubSpaceBeforePunctConcat(a: string, b: string)
    requires a == [] || !IsSpace(a[|a| - 1])
    ensures SubSpaceBeforePunct(a + b) == SubSpaceBeforePunct(a) + SubSpaceBeforePunct(b)
    decreases |a|
  {
    if a == [] {
      assert a + b == b;
    } else if |a| >= 2 && IsSpace(a[0]) && IsPunct(a[1]) {
      assert (a + b)[2..] == a[2..] + b;
      SubSpaceBeforePunctConcat(a[2..], b);
    } else {
      assert (a + b)[1..] == a[1..] + b;
      SubSpaceBeforePunctConcat(a[1..], b);
    }
  }

  /** Drops leading whitespace. */
  function SkipSpaces(s: string): (r: string)
    ensures |r| <= |s|
  {
    if s != [] && IsSpace(s[0]) then SkipSpaces(s[1..]) else s
  }

  lemma {:induction false} SkipSpacesSuffix(s: string)
    ensures SkipSpaces(s) == s[|s| - |SkipSpaces(s)|..]
    ensures SkipSpaces(s) == [] || !IsSpace(SkipSpaces(s)[0])
    decreases |s|
  {
    if s != [] && IsSpace(s[0]) {
      SkipSpacesSuffix(s[1..]);
    }
  }

  /** The longest prefix without whitespace. */
  function TakeWord(s: string): (w: string)
    ensures |w| <= |s|
    ensures s != [] && !IsSpace(s[0]) ==> |w| >= 1
  {
    if s == [] || IsSpace(s[0]) then [] else [s[0]] + TakeWord(s[1..])
  }

  lemma {:induction false} TakeWordPrefix(s: string)
    ensures TakeWord(s) == s[..|TakeWord(s)|]
    ensures forall i :: 0 <= i < |TakeWord(s)| ==> !IsSpace(TakeWord(s)[i])
    decreases |s|
  {
    if s != [] && !IsSpace(s[0]) {
      TakeWordPrefix(s[1..]);
    }
  }

  /** Python's `str.split()` with no separator: the maximal runs of
      non-whitespace characters, in order. */
  function Split(s: string): seq<string>
    decreases |s|
  {
    var t := SkipSpaces(s);
    if t == [] then []
    else
      var w := TakeWord(t);
      [w] + Split(t[|w|..])
  }

  ghost predicate AllSpace(s: string) {
    forall i :: 0 <= i < |s| ==> IsSpace(s[i])
  }

  ghost predicate NoSpace(s: string) {
    forall i :: 0 <= i < |s| ==> !IsSpace(s[i])
  }

  lemma {:induction false} SkipSpacesConcat(a: string, b: string)
    requires AllSpace(a)
    ensures SkipSpaces(a + b) == SkipSpaces(b)
    decreases |a|
  {
    if a != [] {
      assert (a + b)[1..] == a[1..] + b;
      SkipSpacesConcat(a[1..], b);
    } else {
      assert a + b == b;
    }
  }

  lemma {:induction false} TakeWordConcat(w: string, b: string)
    requires NoSpace(w) && (b == [] || IsSpace(b[0]))
    ensures TakeWord(w + b) == w
    decreases |w|
  {
    if w != [] {
      assert (w + b)[1..] == w[1..] + b;
      TakeWordConcat(w[1..], b);
    } else {
      assert w + b == b;
    }
  }

  /** Splitting whitespace, then a word, then text that starts with whitespace. */
  lemma SplitConcat(sp: string, w: string, b: string)
    requires AllSpace(sp) && w != [] && NoSpace(w) && (b == [] || IsSpace(b[0]))
    ensures Split(sp + w + b) == [w] + Split(b)
  {
    assert sp + w + b == sp + (w + b);
    SkipSpacesConcat(sp, w + b);
    assert SkipSpaces(w + b) == w + b;
    TakeWordConcat(w, b);
    assert (w + b)[|w|..] == b;
  }

  lemma SplitAllSpace(s: string)
    requires AllSpace(s)
    ensures Split(s) == []
  {
    SkipSpacesConcat(s, []);
    assert s + [] == s;
  }

  /** The words joined with single spaces. */
  function Join(words: seq<string>): string
    decreases |words|
  {
    if words == [] then []
    else if |words| == 1 then words[0]
    else words[0] + " " + Join(words[1..])
  }

  /** Python's `str.strip()`. */
  function Strip(s: string): string
    decreases |s|
  {
    if s != [] && IsSpace(s[0]) then Strip(s[1..])
    else if s != [] && IsSpace(s[|s| - 1]) then Strip(s[..|s| - 1])
    else s
  }

  /** `HotelCleaner.clean_text`: a non-string gives `""`; otherwise the output
      contains only ASCII letters, digits, single spaces and the characters
      `. , " ' ? !`, with no leading or trailing space and no two consecutive
      spaces. */
  function CleanText(v: Option<string>): (r: string)
    ensures v.None? ==> r == ""
    ensures Tidy(r)
  {
    match v
    case None => ""
    case Some(s) =>
      var a := ReplaceDisallowed(s);
      var b := SubSpaceBeforePunct(a);
      SubSpaceBeforePunctAllowed(a);
      SplitWords(b);
      JoinTidy(Split(b));
      StripTidy(Join(Split(b)));
      Strip(Join(Split(b)))
  }

  /** The shape of cleaned text: only letters, digits, the six punctuation
      marks and single spaces, with no space at either end. */
  ghost predicate Tidy(r: string) {
    && (forall i :: 0 <= i < |r| ==> WordChar(r[i]) || r[i] == ' ')
    && (r == [] || (r[0] != ' ' && r[|r| - 1] != ' '))
    && (forall i :: 0 <= i < |r| - 1 ==> r[i] != ' ' || r[i + 1] != ' ')
  }

  /** Non-empty words made of word characters. */
  ghost predicate GoodWords(words: seq<string>) {
    forall k :: 0 <= k < |words| ==> words[k] != [] && forall i :: 0 <= i < |words[k]| ==> WordChar(words[k][i])
  }

  ghost predicate AllAllowed(s: string) {
    forall i :: 0 <= i < |s| ==> Allowed(s[i])
  }

  lemma SuffixAllowed(s: string, k: nat)
    requires AllAllowed(s) && k <= |s|
    ensures AllAllowed(s[k..])
  {
    assert forall i :: 0 <= i < |s| - k ==> s[k..][i] == s[k + i];
  }

  lemma WordCharOf(c: char)
    requires Allowed(c) && !IsSpace(c)
    ensures WordChar(c)
  {
  }

  lemma GoodWordsCons(w: string, words: seq<string>)
    requires w != [] && (forall i :: 0 <= i < |w| ==> WordChar(w[i])) && GoodWords(words)
    ensures GoodWords([w] + words)
  {
    forall k | 0 <= k < |[w] + words| ensures ([w] + words)[k] != [] {
      if k > 0 { assert ([w] + words)[k] == words[k - 1]; }
    }
  }

  /** Every word `Split` produces on allowed characters is non-empty and made of
      word characters. */
  lemma {:induction false} SplitWords(s: string)
    requires AllAllowed(s)
    ensures GoodWords(Split(s))
    decreases |s|
  {
    var t := SkipSpaces(s);
    SkipSpacesSuffix(s);
    if t != [] {
      var w := TakeWord(t);
      TakeWordPrefix(t);
      var rest := t[|w|..];
      SuffixAllowed(s, |s| - |t|);
      SuffixAllowed(t, |w|);
      SplitWords(rest);
      forall i | 0 <= i < |w| ensures WordChar(w[i]) {
        assert w[i] == t[i];
        WordCharOf(w[i]);
      }
      GoodWordsCons(w, Split(rest));
      assert Split(s) == [w] + Split(rest);
    }
  }

  /** Joining non-empty words of word characters with single spaces is tidy. */
  lemma {:induction false} JoinTidy(words: seq<string>)
    requires GoodWords(words)
    ensures Tidy(Join(words))
    ensures words != [] ==> Join(words) != [] && Join(words)[0] == words[0][0]
    decreases |words|
  {
    if |words| > 1 {
      JoinTidy(words[1..]);
      var w, rest := words[0], Join(words[1..]);
      var r := w + " " + rest;
      assert r == Join(words);
      forall i | 0 <= i < |r| - 1 ensures r[i] != ' ' || r[i + 1] != ' ' {
        if i < |w| - 1 {
        } else if i == |w| - 1 {
        } else if i == |w| {
          assert r[i + 1] == rest[0];
        } else {
          assert r[i] == rest[i - |w| - 1] && r[i + 1] == rest[i - |w|];
        }
      }
    }
  }

  /** `strip` leaves text that does not start or end with whitespace unchanged. */
  lemma StripTidy(s: string)
    requires Tidy(s)
    ensures Strip(s) == s
  {
  }

  /** The second substitution keeps text made of allowed characters so. */
  lemma SubSpaceBeforePunctAllowed(a: string)
    requires AllAllowed(a)
    ensures AllAllowed(SubSpaceBeforePunct(a))
  {
    var b := SubSpaceBeforePunct(a);
    SubSpaceBeforePunctChars(a);
    forall i | 0 <= i < |b| ensures Allowed(b[i]) {
      assert b[i] in b;
      var k :| 0 <= k < |a| && a[k] == b[i];
    }
  }

  /** The first two stages on `"  Pool ,  WiFi "`: only the space before the
      comma goes. */
  lemma ReplaceDisallowedExample()
    ensures ReplaceDisallowed("  Pool ,  WiFi ") == "  Pool ,  WiFi "
  {
    assert AllAllowed("  Pool ,  WiFi ");
    ReplaceDisallowedKeeps("  Pool ,  WiFi ");
  }

  lemma SubSpaceBeforePunctExample(s: string)
    requires s == "  Pool ,  WiFi "
    ensures SubSpaceBeforePunct(s) == "  Pool,  WiFi "
  {
    var a, c := s[..6], s[8..];
    assert s == a + ([' ', ','] + c);
    SubSpaceBeforePunctNoPunct(a);
    SubSpaceBeforePunctNoPunct(c);
    SubSpaceBeforeOnePunct(a, ' ', ',', c);
    ExampleSpaceDropped(s);
  }

  lemma ExampleSpaceDropped(s: string)
    requires s == "  Pool ,  WiFi "
    ensures s[..6] + ([','] + s[8..]) == "  Pool,  WiFi "
  {
  }

  /** A whitespace character before a punctuation mark between two pieces the
      substitution keeps is the only thing removed. */
  lemma SubSpaceBeforeOnePunct(a: string, x: char, p: char, c: string)
    requires SubSpaceBeforePunct(a) == a && SubSpaceBeforePunct(c) == c
    requires a == [] || !IsSpace(a[|a| - 1])
    requires IsSpace(x) && IsPunct(p)
    ensures SubSpaceBeforePunct(a + ([x, p] + c)) == a + ([p] + c)
  {
    var t := [x, p] + c;
    assert t[2..] == c;
    SubSpaceBeforePunctConcat(a, t);
  }

  lemma SplitExampleTail()
    ensures Split("  WiFi ") == ["WiFi"]
  {
    assert "  WiFi " == "  " + "WiFi" + " ";
    SplitConcat("  ", "WiFi", " ");
    SplitAllSpace(" ");
  }

  lemma SplitExample()
    ensures Split("  Pool,  WiFi ") == ["Pool,", "WiFi"]
  {
    assert "  Pool,  WiFi " == "  " + "Pool," + "  WiFi ";
    SplitConcat("  ", "Pool,", "  WiFi ");
    SplitExampleTail();
  }

  lemma JoinStripExample()
    ensures Strip(Join(["Pool,", "WiFi"])) == "Pool, WiFi"
  {
    assert Join(["Pool,", "WiFi"]) == "Pool, WiFi";
  }

  /** `clean_text("  Pool ,  WiFi ")` is `"Pool, WiFi"`. */
  lemma CleanTextExample()
    ensures CleanText(Some("  Pool ,  WiFi ")) == "Pool, WiFi"
  {
    ReplaceDisallowedExample();
    SubSpaceBeforePunctExample("  Pool ,  WiFi ");
    SplitExample();
    JoinStripExample();
  }

  /** ASCII lowercasing of one character. */
  function LowerChar(c: char): (d: char)
    ensures !IsUpper(d)
    ensures IsUpper(c) ==> d as int == c as int + 32
    ensures !IsUpper(c) ==> d == c
  {
    if IsUpper(c) then (c as int + 32) as char else c
  }

  /** `str.lower()` on text whose letters are ASCII, which is all that
      `clean_text` leaves. */
  function Lower(s: string): (r: string)
    ensures |r| == |s|
    ensures forall i :: 0 <= i < |s| ==> r[i] == LowerChar(s[i])
  {
    if s == [] then [] else [LowerChar(s[0])] + Lower(s[1..])
  }

  /** `HotelCleaner.clean_caption`: the cleaned text lowercased, so of the
      same length and shape, with no capital letter, each capital replaced by
      its lowercase letter and every other character kept in place. */
  function CleanCaption(v: Option<string>): (r: string)
    ensures |r| == |CleanText(v)|
    ensures forall i :: 0 <= i < |r| ==> !IsUpper(r[i])
    ensures forall i :: 0 <= i < |r| && IsUpper(CleanText(v)[i]) ==> r[i] as int == CleanText(v)[i] as int + 32
    ensures forall i :: 0 <= i < |r| && !IsUpper(CleanText(v)[i]) ==> r[i] == CleanText(v)[i]
    ensures v.None? ==> r == ""
    ensures Tidy(r)
  {
    match v
    case None => ""
    case Some(_) =>
      LowerTidy(CleanText(v));
      Lower(CleanText(v))
  }

  /** Lowercasing keeps the shape of cleaned text. */
  lemma LowerTidy(s: string)
    requires Tidy(s)
    ensures Tidy(Lower(s))
  {
    var r := Lower(s);
    forall i | 0 <= i < |r| ensures WordChar(r[i]) || r[i] == ' ' {
      assert r[i] == LowerChar(s[i]);
    }
  }

  /** The amenity substitution: a space before every capital letter except
      one at the very start. */
  function SpaceBeforeUpper(s: string): string {
    if s == [] then [] else [s[0]] + SpaceUppers(s[1..])
  }

  /** A space before every capital letter. */
  function SpaceUppers(s: string): string {
    if s == [] then []
    else (if IsUpper(s[0]) then " " + [s[0]] else [s[0]]) + SpaceUppers(s[1..])
  }

  function CountUpper(s: string): nat {
    if s == [] then 0 else (if IsUpper(s[0]) then 1 else 0) + CountUpper(s[1..])
  }

  /** The characters of `s` other than the ASCII space, in order. */
  function NonBlank(s: string): string {
    if s == [] then [] else (if s[0] == ' ' then [] else [s[0]]) + NonBlank(s[1..])
  }

  lemma {:induction false} NonBlankConcat(a: string, b: string)
    ensures NonBlank(a + b) == NonBlank(a) + NonBlank(b)
    decreases |a|
  {
    if a == [] {
      assert a + b == b;
    } else {
      assert (a + b)[1..] == a[1..] + b;
      NonBlankConcat(a[1..], b);
    }
  }

  /** Inserting the spaces adds one character per capital letter and deletes
      nothing. */
  lemma {:induction false} SpaceUppersAdds(s: string)
    ensures |SpaceUppers(s)| == |s| + CountUpper(s)
    ensures NonBlank(SpaceUppers(s)) == NonBlank(s)
    decreases |s|
  {
    if s != [] {
      SpaceUppersAdds(s[1..]);
      var head := if IsUpper(s[0]) then " " + [s[0]] else [s[0]];
      NonBlankConcat(head, SpaceUppers(s[1..]));
      NonBlankConcat([s[0]], s[1..]);
      assert [s[0]] + s[1..] == s;
    }
  }

  lemma {:induction false} SpaceBeforeUpperAdds(s: string)
    ensures |SpaceBeforeUpper(s)| == |s| + (if s == [] then 0 else CountUpper(s[1..]))
    ensures NonBlank(SpaceBeforeUpper(s)) == NonBlank(s)
  {
    if s != [] {
      SpaceUppersAdds(s[1..]);
      NonBlankConcat([s[0]], SpaceUppers(s[1..]));
      NonBlankConcat([s[0]], s[1..]);
      assert [s[0]] + s[1..] == s;
    }
  }

  /** Lowercasing commutes with dropping spaces. */
  lemma {:induction false} NonBlankLower(s: string)
    ensures NonBlank(Lower(s)) == Lower(NonBlank(s))
    decreases |s|
  {
    if s != [] {
      NonBlankLower(s[1..]);
      assert Lower(s)[1..] == Lower(s[1..]);
      assert Lower([s[0]] + NonBlank(s[1..])) == [LowerChar(s[0])] + Lower(NonBlank(s[1..]));
    }
  }

  /** `HotelCleaner.clean_amenity`: the cleaned text with one space inserted
      before each capital letter after the first character, lowercased.  No
      capital letter remains, the length grows by exactly that count, and with
      the spaces taken out it is the lowercased cleaned text without its
      spaces. */
  function CleanAmenity(v: Option<string>): (r: string)
    ensures forall i :: 0 <= i < |r| ==> !IsUpper(r[i])
    ensures CleanText(v) != [] ==> |r| == |CleanText(v)| + CountUpper(CleanText(v)[1..])
    ensures CleanText(v) == [] ==> r == []
    ensures NonBlank(r) == Lower(NonBlank(CleanText(v)))
  {
    var c := CleanText(v);
    SpaceBeforeUpperAdds(c);
    NonBlankLower(SpaceBeforeUpper(c));
    match v
    case None => ""
    case Some(_) => Lower(SpaceBeforeUpper(c))
  }

  lemma TidySuffix(s: string, k: nat)
    requires Tidy(s) && k < |s| && (k == 0 || s[k - 1] == ' ')
    ensures Tidy(s[k..])
  {
    var t := s[k..];
    assert forall i :: 0 <= i < |t| ==> t[i] == s[k + i];
  }

  lemma NoWordSpace(s: string)
    requires Tidy(s)
    ensures forall i :: 0 <= i < |s| && s[i] != ' ' ==> !IsSpace(s[i])
  {
  }

  /** Splitting tidy text and joining it again gives it back. */
  lemma {:induction false} JoinSplitTidy(s: string)
    requires Tidy(s)
    ensures Join(Split(s)) == s
    ensures s != [] ==> Split(s) != []
    decreases |s|
  {
    if s != [] {
      NoWordSpace(s);
      assert SkipSpaces(s) == s;
      var w := TakeWord(s);
      TakeWordPrefix(s);
      var rest := s[|w|..];
      assert Split(s) == [w] + Split(rest);
      if rest == [] {
        assert w == s;
        SplitAllSpace(rest);
      } else {
        var next := TidyAfterWord(s, w);
        JoinSplitTidy(next);
      }
    }
  }

  /** In tidy text a word that does not reach the end is followed by one
      space and then more tidy text, which splits the same way. */
  lemma TidyAfterWord(s: string, w: string) returns (next: string)
    requires Tidy(s) && s != [] && w == TakeWord(s) && |w| < |s|
    requires w == s[..|w|]
    ensures next == s[|w| + 1..] && next != [] && Tidy(next)
    ensures Split(s[|w|..]) == Split(next)
    ensures s == w + " " + next
  {
    var rest := s[|w|..];
    TakeWordStops(s);
    assert rest[0] == ' ';
    next := rest[1..];
    assert s[|s| - 1] != ' ';
    assert next == s[|w| + 1..];
    TidySuffix(s, |w| + 1);
    assert rest == [' '] + next;
    assert AllSpace([' ']);
    SkipSpacesConcat([' '], next);
    assert next[0] != ' ';
    NoWordSpace(next);
    assert SkipSpaces(next) == next;
    assert s == w + " " + next;
  }

  /** `TakeWord` stops only at whitespace. */
  lemma {:induction false} TakeWordStops(s: string)
    ensures |TakeWord(s)| < |s| ==> IsSpace(s[|TakeWord(s)|])
    decreases |s|
  {
    if s != [] && !IsSpace(s[0]) {
      TakeWordStops(s[1..]);
    }
  }

  /** `clean_text` leaves tidy text without punctuation unchanged. */
  lemma CleanTextFixed(s: string)
    requires Tidy(s) && forall i :: 0 <= i < |s| ==> !IsPunct(s[i])
    ensures CleanText(Some(s)) == s
  {
    assert AllAllowed(s);
    ReplaceDisallowedKeeps(s);
    SubSpaceBeforePunctNoPunct(s);
    JoinSplitTidy(s);
    StripTidy(s);
  }

  lemma {:induction false} SpaceUppersConcat(a: string, b: string)
    ensures SpaceUppers(a + b) == SpaceUppers(a) + SpaceUppers(b)
    decreases |a|
  {
    if a == [] {
      assert a + b == b;
    } else {
      assert (a + b)[1..] == a[1..] + b;
      SpaceUppersConcat(a[1..], b);
    }
  }

  lemma LowerConcat(a: string, b: string)
    ensures Lower(a + b) == Lower(a) + Lower(b)
  {
    var s, r := a + b, Lower(a) + Lower(b);
    assert |r| == |s|;
    forall i | 0 <= i < |s| ensures Lower(s)[i] == r[i] {
      if i < |a| {
        assert s[i] == a[i] && r[i] == Lower(a)[i];
      } else {
        assert s[i] == b[i - |a|] && r[i] == Lower(b)[i - |a|];
      }
    }
  }

  lemma SpaceBeforeUpperAtCapital(a: string, c: char, b: string)
    requires a != [] && IsUpper(c)
    ensures SpaceBeforeUpper(a + [c] + b) == SpaceBeforeUpper(a) + (" " + [c]) + SpaceUppers(b)
  {
    var t := a + [c] + b;
    assert t[1..] == a[1..] + ([c] + b);
    SpaceUppersConcat(a[1..], [c] + b);
    assert ([c] + b)[1..] == b;
  }

  lemma SpaceBeforeUpperLast(a: string)
    requires a != [] && a[|a| - 1] == ' '
    ensures SpaceBeforeUpper(a) != [] && SpaceBeforeUpper(a)[|SpaceBeforeUpper(a)| - 1] == ' '
  {
    if |a| > 1 {
      assert a[1..] == a[1..|a| - 1] + [' '];
      SpaceUppersConcat(a[1..|a| - 1], [' ']);
    }
  }

  lemma LowerAtCapital(sa: string, c: char, rest: string)
    ensures Lower(sa + (" " + [c]) + rest) == Lower(sa) + " " + [LowerChar(c)] + Lower(rest)
  {
    var s := sa + (" " + [c]) + rest;
    var r := Lower(sa) + " " + [LowerChar(c)] + Lower(rest);
    assert |r| == |s|;
    forall i | 0 <= i < |s|
      ensures Lower(s)[i] == r[i]
    {
      if i < |sa| {
        assert s[i] == sa[i] && r[i] == Lower(sa)[i];
      } else if i == |sa| {
        assert s[i] == ' ' && r[i] == ' ';
      } else if i == |sa| + 1 {
        assert s[i] == c && r[i] == LowerChar(c);
      } else {
        var j := i - |sa| - 2;
        assert s[i] == rest[j] && r[i] == Lower(rest)[j];
      }
    }
  }

  /** A capital letter after the first character of the cleaned text starts a
      new space-separated piece of the amenity; when a space already stood
      before it, the amenity has two spaces there. */
  lemma CleanAmenityAtCapital(v: Option<string>, a: string, c: char, b: string)
    requires CleanText(v) == a + [c] + b && a != [] && IsUpper(c)
    ensures CleanAmenity(v) == Lower(SpaceBeforeUpper(a)) + " " + [LowerChar(c)] + Lower(SpaceUppers(b))
    ensures a[|a| - 1] == ' ' ==>
      var k := |SpaceBeforeUpper(a)|;
      CleanAmenity(v)[k - 1] == ' ' && CleanAmenity(v)[k] == ' '
  {
    assert v.Some?;
    SpaceBeforeUpperAtCapital(a, c, b);
    LowerAtCapital(SpaceBeforeUpper(a), c, SpaceUppers(b));
    if a[|a| - 1] == ' ' {
      SpaceBeforeUpperLast(a);
    }
  }

  /** `clean_amenity("BusinessCenter")` splits the words at the capital. */
  lemma CleanAmenityBusinessCenter(s: string)
    requires s == "BusinessCenter"
    ensures CleanAmenity(Some(s)) == "business center"
  {
    CamelExample(s, "Business", 'C', "enter", "business", "enter", "business center");
  }

  /** `clean_amenity("Pool Bar")`: the capital after a space gets a second
      space. */
  lemma CleanAmenityPoolBar(s: string)
    requires s == "Pool Bar"
    ensures CleanAmenity(Some(s)) == "pool  bar"
  {
    CamelExample(s, "Pool ", 'B', "ar", "pool ", "ar", "pool  bar");
  }

  lemma CamelExample(s: string, a: string, c: char, b: string, wa: string, wb: string, w: string)
    requires || (s == "BusinessCenter" && a == "Business" && c == 'C' && b == "enter" && wa == "business" && wb == "enter" && w == "business center")
             || (s == "Pool Bar" && a == "Pool " && c == 'B' && b == "ar" && wa == "pool " && wb == "ar" && w == "pool  bar")
    ensures CleanAmenity(Some(s)) == w
  {
    CamelFacts(s, a, c, b, wa, wb, w);
    CleanAmenityCamel(s, a, c, b, wa, wb);
  }

  /** The facts about the two example amenities that `CleanAmenityCamel`
      needs. */
  lemma CamelFacts(s: string, a: string, c: char, b: string, wa: string, wb: string, w: string)
    requires || (s == "BusinessCenter" && a == "Business" && c == 'C' && b == "enter" && wa == "business" && wb == "enter" && w == "business center")
             || (s == "Pool Bar" && a == "Pool " && c == 'B' && b == "ar" && wa == "pool " && wb == "ar" && w == "pool  bar")
    ensures s == a + [c] + b && a != [] && IsUpper(c)
    ensures forall i :: 0 <= i < |s| ==> IsLetter(s[i]) || s[i] == ' '
    ensures forall i :: 0 <= i < |s| - 1 ==> s[i] != ' ' || s[i + 1] != ' '
    ensures s == [] || (s[0] != ' ' && s[|s| - 1] != ' ')
    ensures forall i :: 1 <= i < |a| ==> !IsUpper(a[i])
    ensures forall i :: 0 <= i < |b| ==> !IsUpper(b[i])
    ensures |wa| == |a| && forall i :: 0 <= i < |a| ==> wa[i] == LowerChar(a[i])
    ensures |wb| == |b| && forall i :: 0 <= i < |b| ==> wb[i] == LowerChar(b[i])
    ensures w == wa + " " + [LowerChar(c)] + wb
  {
  }

  /** Letters and single inner spaces with one capital `c` after the first
      character: the amenity is the lowercased text with a space before
      `c`. */
  lemma CleanAmenityCamel(s: string, a: string, c: char, b: string, wa: string, wb: string)
    requires s == a + [c] + b && a != [] && IsUpper(c)
    requires forall i :: 0 <= i < |s| ==> IsLetter(s[i]) || s[i] == ' '
    requires forall i :: 0 <= i < |s| - 1 ==> s[i] != ' ' || s[i + 1] != ' '
    requires s == [] || (s[0] != ' ' && s[|s| - 1] != ' ')
    requires forall i :: 1 <= i < |a| ==> !IsUpper(a[i])
    requires forall i :: 0 <= i < |b| ==> !IsUpper(b[i])
    requires |wa| == |a| && forall i :: 0 <= i < |a| ==> wa[i] == LowerChar(a[i])
    requires |wb| == |b| && forall i :: 0 <= i < |b| ==> wb[i] == LowerChar(b[i])
    ensures CleanAmenity(Some(s)) == wa + " " + [LowerChar(c)] + wb
  {
    LettersFixed(s);
    CleanAmenityAtCapital(Some(s), a, c, b);
    LowerCaseWord(a, wa);
    NoUpperSpaces(b);
    assert Lower(b) == wb;
  }

  /** Words of letters separated by single spaces are left unchanged by
      `clean_text`. */
  lemma LettersFixed(s: string)
    requires forall i :: 0 <= i < |s| ==> IsLetter(s[i]) || s[i] == ' '
    requires forall i :: 0 <= i < |s| - 1 ==> s[i] != ' ' || s[i + 1] != ' '
    requires s == [] || (s[0] != ' ' && s[|s| - 1] != ' ')
    ensures CleanText(Some(s)) == s
  {
    assert Tidy(s);
    CleanTextFixed(s);
  }

  /** A piece without capitals after its first character gets no space, and
      lowercases to `w`. */
  lemma LowerCaseWord(x: string, w: string)
    requires x != [] && forall i :: 1 <= i < |x| ==> !IsUpper(x[i])
    requires |w| == |x| && forall i :: 0 <= i < |x| ==> w[i] == LowerChar(x[i])
    ensures Lower(SpaceBeforeUpper(x)) == w
  {
    NoUpperSpaces(x[1..]);
    assert [x[0]] + x[1..] == x;
  }

  lemma {:induction false} NoUpperSpaces(x: string)
    requires forall i :: 0 <= i < |x| ==> !IsUpper(x[i])
    ensures SpaceUppers(x) == x
  {
    if x != [] {
      NoUpperSpaces(x[1..]);
      assert [x[0]] + x[1..] == x;
    }
  }

  /** Two spaces before a comma: the substitution removes only one of them. */
  lemma CleanTextTwoSpacesBeforeComma()
    ensures CleanText(Some("a  ,")) == "a ,"
  {
    TwoSpacesSubstituted("a  ,");
    TwoSpacesWords("a ,");
  }

  lemma TwoSpacesSubstituted(s: string)
    requires s == "a  ,"
    ensures SubSpaceBeforePunct(ReplaceDisallowed(s)) == "a ,"
  {
    assert AllAllowed(s);
    ReplaceDisallowedKeeps(s);
    assert s[2..][2..] == [];
    assert SubSpaceBeforePunct(s[2..]) == ",";
    assert s[1..][1..] == s[2..];
    assert SubSpaceBeforePunct(s[1..]) == " " + SubSpaceBeforePunct(s[2..]);
    assert SubSpaceBeforePunct(s) == "a" + SubSpaceBeforePunct(s[1..]);
  }

  lemma TwoSpacesWords(s: string)
    requires s == "a ,"
    ensures Strip(Join(Split(s))) == "a ,"
  {
    TwoWordsSplit(s);
    assert Join(["a", ","]) == "a ,";
    StripTidy(s);
  }

  lemma TwoWordsSplit(s: string)
    requires s == "a ,"
    ensures Split(s) == ["a", ","]
  {
    assert s == [] + "a" + " ,";
    SplitConcat([], "a", " ,");
    assert " ," == " " + "," + [];
    SplitConcat(" ", ",", []);
  }

  lemma CleanTextOneSpaceBeforeComma()
    ensures CleanText(Some("a ,")) == "a,"
  {
    var s := "a ,";
    assert AllAllowed(s);
    ReplaceDisallowedKeeps(s);
    assert SubSpaceBeforePunct(s) == "a,";
    assert "a," == [] + "a," + [];
    SplitConcat([], "a,", []);
  }

  /** `clean_text` is not idempotent: cleaning `"a  ,"` twice differs from
      cleaning it once. */
  lemma CleanTextNotIdempotent()
    ensures CleanText(Some(CleanText(Some("a  ,")))) != CleanText(Some("a  ,"))
  {
    CleanTextTwoSpacesBeforeComma();
    CleanTextOneSpaceBeforeComma();
  }

}
