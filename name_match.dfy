/** Scoring of one profile section header against the name a joystick
    reports (auto_compare_name, src/autoconfig.c:130-205).  A header may start
    with a platform marker, which is removed and earns a small bonus; the
    header then matches when every one of its space-separated words occurs,
    ignoring case, somewhere in the device name.  A match scores 4 per word,
    4 more when the header is the device name exactly, plus the bonus; a
    header with a missing word scores -1. */
module NameMatch {
  import opened Text

  /** The build target.  It stands for the preprocessor symbols the source
      tests: Linux defines both __unix__ and __linux__, OtherUnix only
      __unix__, MacOS only __APPLE__ (Apple's compilers do not define
      __unix__), Windows defines WIN32 and says whether SDL 2 is used. */
  datatype Platform = Linux | OtherUnix | MacOS | Windows(sdl2: bool) | OtherPlatform
  {
    predicate DefinesUnix()
    {
      Linux? || OtherUnix?
    }
  }

  /** Longest word compared: the word buffer holds 63 characters and a NUL. */
  const MaxWordLength: nat := 63

  /** strncmp(s, prefix, |prefix|) == 0 */
  predicate StartsWith(s: string, prefix: string)
  {
    |prefix| <= |s| && forall i :: 0 <= i < |prefix| ==> s[i] == prefix[i]
  }

  /** The platform markers a build recognises at the start of a header, in
      the order they are tried, each with the score it is worth. */
  function Markers(p: Platform): seq<(string, nat)>
  {
    match p
    case Linux => [("Unix:", 1), ("Linux:", 1)]
    case OtherUnix => [("Unix:", 1)]
    case MacOS => [("OSX:", 1)]
    case Windows(sdl2) => if sdl2 then [("Win32:", 1), ("XInput:", 2)] else [("Win32:", 1)]
    case OtherPlatform => []
  }

  predicate HasMarker(p: Platform, header: string)
  {
    exists k :: 0 <= k < |Markers(p)| && StartsWith(header, Markers(p)[k].0)
  }

  /** A header with its platform marker removed, and the score the marker
      earned (0 when there was none). */
  datatype Stripped = Stripped(bonus: nat, rest: string)

  /** What follows a marker, without the whitespace around it. */
  function AfterMarker(s: string, marker: string): string
    requires StartsWith(s, marker)
  {
    Strip(s[|marker|..])
  }

  /** The platform checks of auto_compare_name, one after the other as the
      preprocessor leaves them: on Linux both the Unix: and the Linux: checks
      run, the second on what the first left, and each sets (not adds) the
      bonus; on Windows, Win32: and XInput: exclude each other. */
  function StripPlatform(p: Platform, header: string): (r: Stripped)
    ensures r.bonus <= 2
    ensures r.bonus == 0 ==> r.rest == header
  {
    var a := if p.DefinesUnix() && StartsWith(header, "Unix:")
             then Stripped(1, AfterMarker(header, "Unix:")) else Stripped(0, header);
    var b := if p.Linux? && StartsWith(a.rest, "Linux:")
             then Stripped(1, AfterMarker(a.rest, "Linux:")) else a;
    var c := if p.MacOS? && StartsWith(b.rest, "OSX:")
             then Stripped(1, AfterMarker(b.rest, "OSX:")) else b;
    if p.Windows? && StartsWith(c.rest, "Win32:") then Stripped(1, AfterMarker(c.rest, "Win32:"))
    else if p.Windows? && p.sdl2 && StartsWith(c.rest, "XInput:") then Stripped(2, AfterMarker(c.rest, "XInput:"))
    else c
  }

  /** A header earns a bonus exactly when it starts with one of the markers
      of the platform; only XInput: on an SDL 2 Windows build earns 2. */
  lemma BonusIffMarker(p: Platform, header: string)
    ensures StripPlatform(p, header).bonus == 0 <==> !HasMarker(p, header)
    ensures StripPlatform(p, header).bonus == 2 <==> p == Windows(true) && StartsWith(header, "XInput:")
  {
    var ms := Markers(p);
    match p
    case Linux =>
      assert HasMarker(p, header) <==> StartsWith(header, ms[0].0) || StartsWith(header, ms[1].0);
    case OtherUnix =>
      assert HasMarker(p, header) <==> StartsWith(header, ms[0].0);
    case MacOS =>
      assert HasMarker(p, header) <==> StartsWith(header, ms[0].0);
    case Windows(sdl2) =>
      if StartsWith(header, "XInput:") {
        assert header[0] == 'X';
      }
      if sdl2 {
        assert HasMarker(p, header) <==> StartsWith(header, ms[0].0) || StartsWith(header, ms[1].0);
      } else {
        assert HasMarker(p, header) <==> StartsWith(header, ms[0].0);
      }
    case OtherPlatform =>
  }

  /** A word cut to the size of the word buffer. */
  function Truncate(w: string): (t: string)
    ensures |t| == if |w| <= MaxWordLength then |w| else MaxWordLength
    ensures t == w[..|t|]
  {
    if |w| <= MaxWordLength then w else w[..MaxWordLength]
  }

  /** The words of a header, in order, as the word loop of auto_compare_name
      takes them apart: spaces are skipped, a word runs to the next single
      space (only ' ' separates; tabs belong to words), and each word is cut
      to MaxWordLength characters. */
  function Words(s: string): (ws: seq<string>)
    ensures forall k :: 0 <= k < |ws| ==> 1 <= |ws[k]| <= MaxWordLength
    decreases |s|
  {
    if s == [] then []
    else if s[0] == ' ' then Words(s[1..])
    else
      var j := IndexOf(s, ' ');
      if j == |s| then [Truncate(s)] else [Truncate(s[..j])] + Words(s[j + 1..])
  }

  predicate AllWordsFound(name: string, words: seq<string>)
  {
    forall k :: 0 <= k < |words| ==> ContainsIgnoreCase(name, words[k])
  }

  /** What auto_compare_name returns, in closed form: -1 when some word of
      the marker-stripped header does not occur in the name; otherwise the
      marker bonus, plus 4 when the rest of the header is the name exactly
      (case counts there), plus 4 for each word. */
  function Score(p: Platform, name: string, header: string): (r: int)
    ensures r >= 0 <==> AllWordsFound(name, Words(StripPlatform(p, header).rest))
    ensures r >= 0 ==> 4 * |Words(StripPlatform(p, header).rest)| <= r - StripPlatform(p, header).bonus
                         <= 4 + 4 * |Words(StripPlatform(p, header).rest)|
    ensures r == -1 || r >= 0
  {
    var h := StripPlatform(p, header);
    var words := Words(h.rest);
    if AllWordsFound(name, words) then h.bonus + (if h.rest == name then 4 else 0) + 4 * |words|
    else -1
  }

  lemma AllWordsFoundSnoc(name: string, done: seq<string>, w: string)
    ensures AllWordsFound(name, done + [w]) <==> AllWordsFound(name, done) && ContainsIgnoreCase(name, w)
  {
    var ws := done + [w];
    assert ws[|done|] == w;
    assert forall k :: 0 <= k < |done| ==> ws[k] == done[k];
  }

  /** How many of the words occur in the name. */
  function CountFound(name: string, words: seq<string>): (n: nat)
    ensures n <= |words|
    ensures AllWordsFound(name, words) ==> n == |words|
  {
    if words == [] then 0
    else CountFound(name, words[..|words| - 1]) + (if ContainsIgnoreCase(name, words[|words| - 1]) then 1 else 0)
  }

  /** A space in front of the header changes nothing. */
  lemma SkipSpace(s: string, i: nat)
    requires i < |s| && s[i] == ' '
    ensures Words(s[i..]) == Words(s[i + 1..])
  {
    assert s[i..][1..] == s[i + 1..];
  }

  lemma AppendAssoc(a: seq<string>, x: string, r: seq<string>)
    ensures (a + [x]) + r == a + ([x] + r)
  {
  }

  lemma CountFoundSnoc(name: string, done: seq<string>, w: string)
    ensures CountFound(name, done + [w]) == CountFound(name, done) + if ContainsIgnoreCase(name, w) then 1 else 0
  {
    var ws := done + [w];
    assert ws[..|ws| - 1] == done;
    assert ws[|ws| - 1] == w;
  }

  /** One turn of the word loop: from a non-space at i, the next word runs to
      the first space at or after i (or to the end), cut to MaxWordLength. */
  lemma WordsFrom(s: string, i: nat, j: nat)
    requires i < j <= |s| && s[i] != ' '
    requires forall k :: i <= k < j ==> s[k] != ' '
    requires j < |s| ==> s[j] == ' '
    ensures Words(s[i..]) == [Truncate(s[i..j])] + (if j == |s| then [] else Words(s[j + 1..]))
  {
    var t := s[i..];
    IndexOfUnique(t, ' ', j - i);
    if j < |s| {
      assert t[..j - i] == s[i..j];
      assert t[j - i + 1..] == s[j + 1..];
    } else {
      assert t == s[i..j];
    }
  }

  /** The loop that moves the word pointer past spaces. */
  method SkipSpaces(w: string, i: nat) returns (next: nat)
    requires i <= |w|
    ensures i <= next <= |w|
    ensures forall k :: i <= k < next ==> w[k] == ' '
    ensures next < |w| ==> w[next] != ' '
  {
    next := i;
    while next < |w| && w[next] == ' '
      invariant i <= next <= |w|
      invariant forall k :: i <= k < next ==> w[k] == ' '
    {
      next := next + 1;
    }
  }

  /** Spaces in front of the header change nothing. */
  lemma {:induction false} SkipSpacesWords(w: string, i: nat, next: nat)
    requires i <= next <= |w|
    requires forall k :: i <= k < next ==> w[k] == ' '
    ensures Words(w[next..]) == Words(w[i..])
    decreases next - i
  {
    if i < next {
      SkipSpace(w, i);
      SkipSpacesWords(w, i + 1, next);
    }
  }

  /** auto_compare_name as the source writes it: the platform checks reassign
      the word pointer and the score, then the word loop walks the header
      with two accumulators, the found flag and the running score. */
  method CompareName(p: Platform, name: string, header: string) returns (score: int)
    ensures score == Score(p, name, header)
  {
    var w := header;
    score := 0;
    if p.DefinesUnix() && StartsWith(w, "Unix:") {
      w := AfterMarker(w, "Unix:");
      score := 1;
    }
    if p.Linux? && StartsWith(w, "Linux:") {
      w := AfterMarker(w, "Linux:");
      score := 1;
    }
    if p.MacOS? && StartsWith(w, "OSX:") {
      w := AfterMarker(w, "OSX:");
      score := 1;
    }
    if p.Windows? {
      if StartsWith(w, "Win32:") {
        w := AfterMarker(w, "Win32:");
        score := 1;
      } else if p.sdl2 && StartsWith(w, "XInput:") {
        w := AfterMarker(w, "XInput:");
        score := 2;
      }
    }
    assert Stripped(score, w) == StripPlatform(p, header);
    if w == name {
      score := score + 4;
    }
    var found, wordScore := MatchWords(name, w);
    if found {
      score := score + wordScore;
    } else {
      score := -1;
    }
  }

  /** The word loop of auto_compare_name: found stays true while every word
      so far occurs in the name, and each word that occurs adds 4. */
  method MatchWords(name: string, w: string) returns (found: bool, score: nat)
    ensures found == AllWordsFound(name, Words(w))
    ensures score == 4 * CountFound(name, Words(w))
  {
    ghost var done: seq<string> := [];
    found := true;
    score := 0;
    var i := 0;
    while i < |w|
      invariant 0 <= i <= |w|
      invariant done + Words(w[i..]) == Words(w)
      invariant found == AllWordsFound(name, done)
      invariant score == 4 * CountFound(name, done)
      decreases |w| - i
    {
      // skip over any preceding spaces
      var start := SkipSpaces(w, i);
      SkipSpacesWords(w, i, start);
      i := start;
      if i == |w| {
        break;
      }
      // search for the next space after the current word
      var j := FindChar(w, i, ' ');
      ghost var remaining := Words(w[i..]);
      var word := Truncate(w[i..j]);
      var next := if j == |w| then |w| else j + 1;
      assert remaining == [word] + Words(w[next..]) by {
        WordsFrom(w, i, j);
        if j == |w| {
          assert w[next..] == [];
        }
      }
      i := next;
      assert AllWordsFound(name, done + [word]) <==> found && ContainsIgnoreCase(name, word) by {
        AllWordsFoundSnoc(name, done, word);
      }
      CountFoundSnoc(name, done, word);
      AppendAssoc(done, word, Words(w[i..]));
      done := done + [word];
      if !ContainsIgnoreCase(name, word) {
        found := false;
      } else {
        score := score + 4;
      }
    }
    assert w[i..] == [];
    assert done == Words(w);
  }

  // ---------------------------------------------------------------------
  // Properties of the word split
  // ---------------------------------------------------------------------

  /** A header without spaces is one word. */
  lemma SpaceFreeIsOneWord(s: string)
    requires s != [] && ' ' !in s
    ensures Words(s) == [Truncate(s)]
  {
    assert s[0] != ' ';
    assert IndexOf(s, ' ') == |s|;
  }

  /** A header has no words exactly when it is spaces only. */
  lemma {:induction false} NoWordsIffSpaces(s: string)
    ensures Words(s) == [] <==> forall k :: 0 <= k < |s| ==> s[k] == ' '
    decreases |s|
  {
    if s != [] && s[0] == ' ' {
      NoWordsIffSpaces(s[1..]);
      assert forall k :: 1 <= k < |s| ==> s[k] == s[1..][k - 1];
    }
  }

  /** w occurs in s at offset i, case included. */
  predicate OccursAt(s: string, w: string, i: int)
  {
    0 <= i && i + |w| <= |s| && s[i..i + |w|] == w
  }

  /** An occurrence in a suffix is an occurrence in the whole. */
  lemma OccursInSuffix(s: string, d: nat, w: string, i: int)
    requires d <= |s| && OccursAt(s[d..], w, i)
    ensures OccursAt(s, w, d + i)
  {
    assert s[d..][i..i + |w|] == s[d + i..d + i + |w|];
  }

  /** The words of a text that starts with a word: that word, cut, then
      the words after the space that ends it. */
  lemma WordsSplit(s: string)
    requires s != [] && s[0] != ' '
    ensures var j := IndexOf(s, ' ');
      && |Words(s)| >= 1 && Words(s)[0] == Truncate(s[..j])
      && Words(s)[1..] == if j == |s| then [] else Words(s[j + 1..])
  {
    var j := IndexOf(s, ' ');
    if j == |s| {
      assert s[..j] == s;
    }
  }

  lemma TailIndex(ws: seq<string>, k: nat)
    requires 1 <= k < |ws|
    ensures k - 1 < |ws[1..]| && ws[1..][k - 1] == ws[k]
  {
  }

  /** The first word of a text that starts with a word sits at its start. */
  lemma FirstWordOccurs(s: string)
    requires s != [] && s[0] != ' '
    ensures OccursAt(s, Words(s)[0], 0)
  {
    WordsSplit(s);
    var j := IndexOf(s, ' ');
    var w := Words(s)[0];
    assert w == s[..j][..|w|];
    assert s[0..|w|] == w;
  }

  /** A word after the first is a word of what follows the first space. */
  lemma LaterWord(s: string, k: nat)
    requires s != [] && s[0] != ' ' && 1 <= k < |Words(s)|
    ensures IndexOf(s, ' ') < |s|
    ensures k - 1 < |Words(s[IndexOf(s, ' ') + 1..])| && Words(s[IndexOf(s, ' ') + 1..])[k - 1] == Words(s)[k]
  {
    WordsSplit(s);
    TailIndex(Words(s), k);
  }

  /** Something that occurs in a suffix occurs in the whole. */
  lemma ShiftOccurrence(s: string, d: nat, w: string)
    requires d <= |s| && exists i :: OccursAt(s[d..], w, i)
    ensures exists i :: OccursAt(s, w, i)
  {
    var i :| OccursAt(s[d..], w, i);
    OccursInSuffix(s, d, w, i);
  }

  /** Every word is a piece of the header it came from. */
  lemma {:induction false} WordsOccurIn(s: string, k: nat)
    requires k < |Words(s)|
    ensures exists i :: OccursAt(s, Words(s)[k], i)
    decreases |s|
  {
    if s[0] == ' ' {
      SkipSpace(s, 0);
      assert s[0..] == s;
      WordsOccurIn(s[1..], k);
      ShiftOccurrence(s, 1, Words(s)[k]);
    } else if k == 0 {
      FirstWordOccurs(s);
    } else {
      var j := IndexOf(s, ' ');
      LaterWord(s, k);
      WordsOccurIn(s[j + 1..], k - 1);
      ShiftOccurrence(s, j + 1, Words(s)[k]);
    }
  }

  // ---------------------------------------------------------------------
  // Properties of the score
  // ---------------------------------------------------------------------

  /** A header that, once its marker is removed, is the device name itself
      always matches, with the exact-match bonus and 4 for each word. */
  lemma ExactHeaderScore(p: Platform, name: string, header: string)
    requires StripPlatform(p, header).rest == name
    ensures Score(p, name, header) == StripPlatform(p, header).bonus + 4 + 4 * |Words(name)|
  {
    var words := Words(name);
    forall k | 0 <= k < |words|
      ensures ContainsIgnoreCase(name, words[k])
    {
      WordsOccurIn(name, k);
      var i :| OccursAt(name, words[k], i);
      ContainsExactly(name, words[k], i);
    }
  }

  /** The exact-match bonus decides between two headers with the same words
      and the same marker: the one equal to the device name scores higher. */
  lemma ExactBeatsSameWords(p: Platform, name: string, exact: string, other: string)
    requires StripPlatform(p, exact).rest == name
    requires StripPlatform(p, other).rest != name
    requires Words(StripPlatform(p, other).rest) == Words(name)
    requires StripPlatform(p, other).bonus == StripPlatform(p, exact).bonus
    ensures Score(p, name, exact) == Score(p, name, other) + 4
  {
    ExactHeaderScore(p, name, exact);
  }

  /** A header made only of spaces has no words and matches every device. */
  lemma BlankHeaderMatches(p: Platform, name: string, header: string)
    requires forall k :: 0 <= k < |StripPlatform(p, header).rest| ==> StripPlatform(p, header).rest[k] == ' '
    ensures Score(p, name, header) >= 0
  {
    NoWordsIffSpaces(StripPlatform(p, header).rest);
  }

  lemma AfterMarkerOf(m: string, body: string)
    ensures StartsWith(m + body, m) && AfterMarker(m + body, m) == Strip(body)
  {
    assert (m + body)[|m|..] == body;
  }

  /** A recognised marker in front of a header without a marker is
      removed again, together with the whitespace after it, and earns its
      bonus. */
  lemma StripMarker(p: Platform, k: nat, body: string)
    requires k < |Markers(p)|
    requires !HasMarker(p, Strip(body))
    ensures StripPlatform(p, Markers(p)[k].0 + body) == Stripped(Markers(p)[k].1, Strip(body))
  {
    var ms := Markers(p);
    var m := ms[k].0;
    AfterMarkerOf(m, body);
    var h := m + body;
    assert h[0] == m[0];
    match p
    case Linux =>
      assert !StartsWith(Strip(body), ms[1].0);
      if k == 1 {
        assert !StartsWith(h, "Unix:");
      }
    case OtherUnix =>
    case MacOS =>
    case Windows(sdl2) =>
      if sdl2 {
        assert !StartsWith(Strip(body), ms[1].0);
      }
      if k == 1 {
        assert !StartsWith(h, "Win32:");
      }
    case OtherPlatform =>
  }

  /** A recognised marker in front of an otherwise identical header, with
      or without whitespace after it, adds its bonus to a match and leaves
      a mismatch a mismatch. */
  lemma MarkerAddsBonus(p: Platform, k: nat, name: string, body: string)
    requires k < |Markers(p)|
    requires !HasMarker(p, Strip(body))
    ensures Score(p, name, Markers(p)[k].0 + body) ==
            if Score(p, name, Strip(body)) == -1 then -1 else Score(p, name, Strip(body)) + Markers(p)[k].1
  {
    StripMarker(p, k, body);
    BonusIffMarker(p, Strip(body));
  }

  /** Stripping a string that starts with a marker keeps the marker, and
      what follows it strips to what followed it before. */
  lemma StripKeepsMarker(m: string, body: string)
    requires m != [] && !IsStripSpace(m[0]) && !IsStripSpace(m[|m| - 1])
    ensures StartsWith(Strip(m + body), m)
    ensures Strip(Strip(m + body)[|m|..]) == Strip(body)
  {
    StripIsStrippedSlice(body);
    var bi, bj :| StrippedSlice(body, bi, bj) && Strip(body) == body[bi..bj];
    // the stripped text ends where body's last non-space is, or right
    // after the marker when body is all spaces
    var e := if bi < bj then bj else 0;
    MarkerSlice(m, body, e);
    assert (m + body[..e])[|m|..] == body[..e];
    StripDropsTrailingSpace(body, e);
  }

  /** A marker followed by text strips to the marker and the text up to
      its last non-space character. */
  lemma MarkerSlice(m: string, body: string, e: nat)
    requires m != [] && !IsStripSpace(m[0]) && !IsStripSpace(m[|m| - 1])
    requires e <= |body| && (forall k :: e <= k < |body| ==> IsStripSpace(body[k]))
    requires e > 0 ==> !IsStripSpace(body[e - 1])
    ensures Strip(m + body) == m + body[..e]
    ensures StartsWith(m + body[..e], m)
  {
    var s := m + body;
    assert StrippedSlice(s, 0, |m| + e) by {
      assert forall k :: |m| <= k < |s| ==> s[k] == body[k - |m|];
    }
    StrippedSliceIsStrip(s, 0, |m| + e);
    assert s[0..|m| + e] == m + body[..e];
  }

  /** On Linux a "Unix:" marker followed by a "Linux:" marker loses both,
      and the bonus is still 1: the second check sets it again rather than
      adding to it. */
  lemma UnixThenLinuxBonus(body: string)
    ensures StripPlatform(Linux, "Unix:Linux:" + body) == Stripped(1, Strip(body))
  {
    var h := "Unix:Linux:" + body;
    assert StartsWith(h, "Unix:") && h[5..] == "Linux:" + body;
    StripKeepsMarker("Linux:", body);
  }
}
