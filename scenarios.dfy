/** Two profile databases traced through auto_set_defaults from end to end:
    a pad listed under an XInput: marker on an SDL 2 Windows build, and a
    generic header followed by a more specific one. */
module Scenarios {
  import opened Text
  import opened NameMatch
  import opened AutoConfig

  /** A string without whitespace at either end is its own strip. */
  lemma StripOfTrimmed(s: string)
    requires s != [] && !IsStripSpace(s[0]) && !IsStripSpace(s[|s| - 1])
    ensures Strip(s) == s
  {
    assert StrippedSlice(s, 0, |s|);
    StrippedSliceIsStrip(s, 0, |s|);
    assert s[0..|s|] == s;
  }

  /** On an SDL 2 Windows build, "XInput: Pad" loses its marker, worth 2. */
  lemma XInputPadMarker()
    ensures StripPlatform(Windows(true), "XInput: Pad") == Stripped(2, "Pad")
  {
    var header := "XInput: Pad";
    assert !StartsWith(header, "Win32:") by { assert header[0] != 'W'; }
    assert StartsWith(header, "XInput:");
    assert header[7..] == " Pad";
    assert " Pad"[1..] == "Pad";
    StripOfTrimmed("Pad");
  }

  /** "XInput: Pad" is worth 2 for the marker, 4 for being the name exactly
      and 4 for its one word. */
  lemma XInputPadScore()
    ensures Score(Windows(true), "Pad", "XInput: Pad") == 10
  {
    XInputPadMarker();
    SpaceFreeIsOneWord("Pad");
    ContainsExactly("Pad", "Pad", 0);
    assert AllWordsFound("Pad", ["Pad"]);
  }

  /** A line "key = value" with a one-space margin on each side of '='. */
  lemma SpacedParam(key: string, value: string)
    requires key != [] && !IsStripSpace(key[0]) && !IsStripSpace(key[|key| - 1])
    requires key[0] != ';' && key[0] != '#' && key[0] != '[' && '=' !in key
    requires value != [] && !IsStripSpace(value[0]) && !IsStripSpace(value[|value| - 1])
    ensures Classify(key + " = " + value) == Param(key, value)
  {
    var k, v := key + " ", " " + value;
    assert key + " = " + value == k + "=" + v;
    assert k[0] == key[0] && '=' !in k;
    ClassifyParam(k, v);
    assert k[..|k| - 1] == key && v[1..] == value;
    StripOfTrimmed(key);
    StripOfTrimmed(value);
  }

  /** A line ended by '\n' is parsed first, then the rest of the text. */
  lemma ParseCons(l: string, rest: string)
    requires '\n' !in l
    ensures Parse(l + "\n" + rest) == [Classify(l)] + Parse(rest)
  {
    LinesCons(l, rest);
    var ls := [l] + Lines(rest);
    assert ls[0] == l && ls[1..] == Lines(rest);
  }

  /** A text of three lines, each ended by '\n', parsed line by line. */
  lemma ParseThree(l1: string, l2: string, l3: string)
    requires '\n' !in l1 && '\n' !in l2 && '\n' !in l3
    ensures Parse(l1 + "\n" + l2 + "\n" + l3 + "\n") == [Classify(l1), Classify(l2), Classify(l3)]
  {
    var r3 := l3 + "\n" + [];
    var r2 := l2 + "\n" + r3;
    assert l1 + "\n" + l2 + "\n" + l3 + "\n" == l1 + "\n" + r2;
    ParseCons(l3, []);
    assert Parse(r3) == [Classify(l3)] by {
      assert Lines([]) == [];
    }
    ParseCons(l2, r3);
    assert Parse(r2) == [Classify(l2), Classify(l3)];
    ParseCons(l1, r2);
  }

  /** A text of four lines, each ended by '\n', parsed line by line. */
  lemma ParseFour(l1: string, l2: string, l3: string, l4: string)
    requires '\n' !in l1 && '\n' !in l2 && '\n' !in l3 && '\n' !in l4
    ensures Parse(l1 + "\n" + l2 + "\n" + l3 + "\n" + l4 + "\n") ==
              [Classify(l1), Classify(l2), Classify(l3), Classify(l4)]
  {
    var r := l2 + "\n" + l3 + "\n" + l4 + "\n";
    assert l1 + "\n" + l2 + "\n" + l3 + "\n" + l4 + "\n" == l1 + "\n" + r;
    ParseCons(l1, r);
    ParseThree(l2, l3, l4);
  }

  lemma PadHeaderLine()
    ensures Classify("[XInput: Pad]") == Header("XInput: Pad")
  {
    assert "[XInput: Pad]" == "[" + "XInput: Pad" + "]";
    ClassifyHeader("XInput: Pad");
    StripOfTrimmed("XInput: Pad");
  }

  lemma PluggedLine()
    ensures Classify("plugged = true") == Param("plugged", "true")
  {
    assert "plugged = true" == "plugged" + " = " + "true";
    assert '=' !in "plugged";
    SpacedParam("plugged", "true");
  }

  lemma DeviceLine()
    ensures Classify("device = 7") == Param("device", "7")
  {
    assert "device = 7" == "device" + " = " + "7";
    assert '=' !in "device";
    SpacedParam("device", "7");
  }

  /** The database of the XInput scenario. */
  const PadDatabase := "[XInput: Pad]" + "\n" + "plugged = true" + "\n" + "device = 7" + "\n"

  lemma PadDatabaseLines()
    ensures '\n' !in "[XInput: Pad]" && '\n' !in "plugged = true" && '\n' !in "device = 7"
  {
  }

  /** The three lines of the database, classified. */
  lemma XInputPadLines()
    ensures Parse(PadDatabase) == [Header("XInput: Pad"), Param("plugged", "true"), Param("device", "7")]
  {
    PadDatabaseLines();
    PadHeaderLine();
    PluggedLine();
    DeviceLine();
    ParseThree("[XInput: Pad]", "plugged = true", "device = 7");
  }

  /** A text without NUL is its own C string. */
  lemma CStringOfText(text: string)
    requires '\0' !in text
    ensures CString(text) == text
  {
    IndexOfUnique(text, '\0', |text|);
    assert text[..|text|] == text;
  }

  lemma PadDatabaseHasNoNul()
    ensures '\0' !in PadDatabase
  {
    assert '\0' !in "[XInput: Pad]" && '\0' !in "plugged = true" && '\0' !in "device = 7";
  }

  /** "plugged = true" is written as the boolean true, "device = 7" as the
      integer 7. */
  lemma PadValues()
    ensures TypedValue("plugged", "true") == Bool(true)
    ensures TypedValue("device", "7") == Int(7)
  {
    assert !EqualsIgnoreCase("plugged", "device");
    assert EqualsIgnoreCase("plugged", "plugged");
    TypedValueRoundTrip("plugged", Bool(true));
    assert EqualsIgnoreCase("device", "device");
    assert FormatInt(7) == "7";
    TypedValueRoundTrip("device", Int(7));
  }

  /** The build and host of the XInput scenario: SDL 2 on Windows, every
      section opens. */
  const PadHost := Host(Windows(true), {})

  /** Run, three lines to the end. */
  lemma RunThree(h: Host, device: int, name: string, m: Matcher, l1: Line, l2: Line, l3: Line,
                 m1: Matcher, w1: seq<Write>, m2: Matcher, w2: seq<Write>, m3: Matcher, w3: seq<Write>)
    requires Valid(m) && Step(h, device, name, m, l1) == Next(m1, w1)
    requires Valid(m1) && Step(h, device, name, m1, l2) == Next(m2, w2)
    requires Valid(m2) && Step(h, device, name, m2, l3) == Next(m3, w3)
    requires m3.best != -1
    ensures Run(h, device, name, m, [l1, l2, l3]) == Outcome(m3.count, w1 + w2 + w3)
  {
    assert [l1, l2, l3] == [l1, l2] + [l3];
    RunTwo(h, device, name, m, l1, l2, [l3], m1, w1, m2, w2);
    RunNext(h, device, name, m2, [l3], m3, w3);
    assert [l3][1..] == [];
    assert w1 + w2 + (w3 + []) == w1 + w2 + w3;
  }

  /** The three lines of the XInput database, one at a time. */
  lemma PadHeaderStep(device: int)
    ensures Step(PadHost, device, "Pad", Initial, Header("XInput: Pad")) ==
              Next(Matcher(NameFound, 10, 1), [Write(SectionName(0), "device", Int(device))])
  {
    XInputPadScore();
  }

  lemma PadPluggedStep(device: int)
    ensures Step(PadHost, device, "Pad", Matcher(NameFound, 10, 1), Param("plugged", "true")) ==
              Next(Matcher(ParamRead, 10, 1), [Write(SectionName(0), "plugged", Bool(true))])
  {
    PadValues();
  }

  lemma PadDeviceStep(device: int)
    ensures Step(PadHost, device, "Pad", Matcher(ParamRead, 10, 1), Param("device", "7")) ==
              Next(Matcher(ParamRead, 10, 1), [Write(SectionName(0), "device", Int(7))])
  {
    PadValues();
  }

  /** A pad called "Pad" against the XInput database: the header matches
      with score 10, AutoConfig0 is opened with the device index, the two
      parameters follow with their types, and one slot is reported. */
  lemma XInputPadScenario(device: int)
    ensures SetDefaults(PadHost, device, Some("Pad"), Some(PadDatabase)) ==
              Outcome(1, [Write(SectionName(0), "device", Int(device)),
                          Write(SectionName(0), "plugged", Bool(true)),
                          Write(SectionName(0), "device", Int(7))])
  {
    PadDatabaseHasNoNul();
    CStringOfText(PadDatabase);
    XInputPadLines();
    PadHeaderStep(device);
    PadPluggedStep(device);
    PadDeviceStep(device);
    RunThree(PadHost, device, "Pad", Initial, Header("XInput: Pad"), Param("plugged", "true"), Param("device", "7"),
             Matcher(NameFound, 10, 1), [Write(SectionName(0), "device", Int(device))],
             Matcher(ParamRead, 10, 1), [Write(SectionName(0), "plugged", Bool(true))],
             Matcher(ParamRead, 10, 1), [Write(SectionName(0), "device", Int(7))]);
  }

  /** No platform marker starts with a character other than U, L, O, W or
      X, so a header starting with another character keeps its text and
      earns no bonus on any build. */
  lemma NoMarkerFor(p: Platform, header: string)
    requires header != [] && header[0] !in {'U', 'L', 'O', 'W', 'X'}
    ensures StripPlatform(p, header) == Stripped(0, header)
  {
    assert !StartsWith(header, "Unix:") && !StartsWith(header, "Linux:") && !StartsWith(header, "OSX:");
    assert !StartsWith(header, "Win32:") && !StartsWith(header, "XInput:");
  }

  /** A word of the buffer's size, then a space, then the rest. */
  lemma WordThen(a: string, rest: string)
    requires a != [] && ' ' !in a && |a| <= MaxWordLength
    ensures Words(a + " " + rest) == [a] + Words(rest)
  {
    var s := a + " " + rest;
    assert s[0..] == s && s[..|a|] == a && s[|a| + 1..] == rest;
    assert forall k :: 0 <= k < |a| ==> s[k] == a[k];
    WordsFrom(s, 0, |a|);
  }

  /** A word is found in any name that holds it. */
  lemma FoundInside(a: string, w: string, b: string)
    ensures ContainsIgnoreCase(a + w + b, w)
  {
    assert (a + w + b)[|a|..|a| + |w|] == w;
    ContainsExactly(a + w + b, w, |a|);
  }

  /** Two and three words, single-spaced. */
  lemma ThreeWords(a: string, b: string, c: string)
    requires a != [] && ' ' !in a && |a| <= MaxWordLength
    requires b != [] && ' ' !in b && |b| <= MaxWordLength
    requires c != [] && ' ' !in c && |c| <= MaxWordLength
    ensures Words(a + " " + b) == [a, b]
    ensures Words(a + " " + b + " " + c) == [a, b, c]
  {
    SpaceFreeIsOneWord(b);
    SpaceFreeIsOneWord(c);
    WordThen(a, b);
    WordThen(b, c);
    assert a + " " + b + " " + c == a + " " + (b + " " + c);
    WordThen(a, b + " " + c);
  }

  /** A header without marker whose words are all in the name, and which
      is not the name itself, scores 4 per word. */
  lemma ScoreOfWords(p: Platform, name: string, header: string, ws: seq<string>)
    requires StripPlatform(p, header) == Stripped(0, header)
    requires Words(header) == ws && AllWordsFound(name, ws) && header != name
    ensures Score(p, name, header) == 4 * |ws|
  {
  }

  const Generic := "Generic"
  const Gamepad := "Gamepad"
  const Pro := "Pro"
  const GenericHeader := Generic + " " + Gamepad
  const ProHeader := Generic + " " + Gamepad + " " + Pro
  const GenericName := ProHeader + " " + "Controller"

  lemma GenericWords()
    ensures Words(GenericHeader) == [Generic, Gamepad]
    ensures Words(ProHeader) == [Generic, Gamepad, Pro]
  {
    assert ' ' !in Generic && ' ' !in Gamepad && ' ' !in Pro;
    ThreeWords(Generic, Gamepad, Pro);
  }

  /** Each of the first three words of a name is found in it. */
  lemma LeadingWordsFound(a: string, b: string, c: string, rest: string)
    ensures AllWordsFound(a + " " + b + " " + c + rest, [a, b])
    ensures AllWordsFound(a + " " + b + " " + c + rest, [a, b, c])
  {
    var name := a + " " + b + " " + c + rest;
    assert name == [] + a + (" " + b + " " + c + rest);
    FoundInside([], a, " " + b + " " + c + rest);
    assert name == a + " " + b + (" " + c + rest);
    FoundInside(a + " ", b, " " + c + rest);
    FoundInside(a + " " + b + " ", c, rest);
  }

  lemma GenericNameHasWords()
    ensures AllWordsFound(GenericName, [Generic, Gamepad])
    ensures AllWordsFound(GenericName, [Generic, Gamepad, Pro])
  {
    LeadingWordsFound(Generic, Gamepad, Pro, " " + "Controller");
    assert GenericName == Generic + " " + Gamepad + " " + Pro + (" " + "Controller");
  }

  /** Against "Generic Gamepad Pro Controller", "Generic Gamepad" scores 8
      and "Generic Gamepad Pro" scores 12, on any build. */
  lemma GenericScores(p: Platform)
    ensures Score(p, GenericName, GenericHeader) == 8
    ensures Score(p, GenericName, ProHeader) == 12
  {
    assert GenericHeader[0] == 'G' && ProHeader[0] == 'G';
    NoMarkerFor(p, GenericHeader);
    NoMarkerFor(p, ProHeader);
    GenericWords();
    GenericNameHasWords();
    assert |GenericHeader| < |GenericName| && |ProHeader| < |GenericName|;
    ScoreOfWords(p, GenericName, GenericHeader, [Generic, Gamepad]);
    ScoreOfWords(p, GenericName, ProHeader, [Generic, Gamepad, Pro]);
  }

  const GenericLine := "[" + GenericHeader + "]"
  const ProLine := "[" + ProHeader + "]"
  const GenericDatabase := GenericLine + "\n" + "X Axis = 0" + "\n" + ProLine + "\n" + "X Axis = 1" + "\n"

  lemma GenericHeaderLines()
    ensures Classify(GenericLine) == Header(GenericHeader)
    ensures Classify(ProLine) == Header(ProHeader)
  {
    ClassifyHeader(GenericHeader);
    ClassifyHeader(ProHeader);
    assert GenericHeader[0] == 'G' && GenericHeader[|GenericHeader| - 1] == 'd';
    assert ProHeader[0] == 'G' && ProHeader[|ProHeader| - 1] == 'o';
    StripOfTrimmed(GenericHeader);
    StripOfTrimmed(ProHeader);
  }

  lemma GenericParamLines()
    ensures Classify("X Axis = 0") == Param("X Axis", "0")
    ensures Classify("X Axis = 1") == Param("X Axis", "1")
    ensures TypedValue("X Axis", "0") == Str("0") && TypedValue("X Axis", "1") == Str("1")
  {
    assert "X Axis = 0" == "X Axis" + " = " + "0" && "X Axis = 1" == "X Axis" + " = " + "1";
    assert '=' !in "X Axis";
    SpacedParam("X Axis", "0");
    SpacedParam("X Axis", "1");
    assert !EqualsIgnoreCase("X Axis", "device") by { assert LowerChar('X') != LowerChar('d'); }
    assert !EqualsIgnoreCase("X Axis", "plugged") && !EqualsIgnoreCase("X Axis", "mouse");
  }

  lemma GenericText()
    ensures '\n' !in GenericLine && '\n' !in ProLine
    ensures '\n' !in "X Axis = 0" && '\n' !in "X Axis = 1"
    ensures '\0' !in GenericDatabase
  {
    assert '\n' !in Generic && '\n' !in Gamepad && '\n' !in Pro;
    assert '\0' !in Generic && '\0' !in Gamepad && '\0' !in Pro;
  }

  lemma GenericLines()
    ensures Parse(GenericDatabase) ==
              [Header(GenericHeader), Param("X Axis", "0"), Header(ProHeader), Param("X Axis", "1")]
  {
    GenericText();
    ParseFour(GenericLine, "X Axis = 0", ProLine, "X Axis = 1");
    GenericHeaderLines();
    GenericParamLines();
  }

  /** A generic header followed by a more specific one: both match
      "Generic Gamepad Pro Controller", the second scores higher and takes
      AutoConfig0 over, so the value it gives "X Axis" is written last; one
      slot is reported. */
  lemma GenericGamepadScenario(p: Platform, device: int)
    ensures SetDefaults(Host(p, {}), device, Some(GenericName), Some(GenericDatabase)) ==
              Outcome(1, [Write(SectionName(0), "device", Int(device)),
                          Write(SectionName(0), "X Axis", Str("0")),
                          Write(SectionName(0), "device", Int(device)),
                          Write(SectionName(0), "X Axis", Str("1"))])
  {
    GenericText();
    CStringOfText(GenericDatabase);
    GenericLines();
    GenericScores(p);
    GenericParamLines();
    BetterHeaderTakesOver(Host(p, {}), device, GenericName, GenericHeader, ProHeader, "X Axis", "0", "1");
  }
}
