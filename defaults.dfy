/** The parse loop of auto_set_defaults (src/autoconfig.c): the profile
    database is read one line at a time, every section header is scored
    against the device name, and the parameters under the best-scoring
    header are written into the sections AutoConfig0 .. AutoConfig3 of the
    host's configuration.  The host store is seen only through the writes
    the loop issues, collected in order in a write log. */
module AutoConfig {
  import opened Text
  import opened NameMatch

  datatype Option<T> = None | Some(value: T)

  /** A typed parameter value (m64p_type).  Floats are only ever copied, so
      they are kept as their bit pattern. */
  datatype Value = Int(i: int) | Bool(b: bool) | Str(s: string) | Float(bits: bv32)

  /** One ConfigSetParameter call: the section behind the handle used, the
      key and the typed value. */
  datatype Write = Write(section: string, key: string, value: Value)

  /** eParseState */
  datatype ParseState = NameSearch | NameFound | ParamRead

  /** What the loop carries from one line to the next: eParseState,
      joyFoundScore and ControllersFound. */
  datatype Matcher = Matcher(state: ParseState, best: int, count: nat)

  const Initial := Matcher(NameSearch, -1, 0)
  const MaxControllers: nat := 4
  const NextControllerKeyword := "__NextController:"

  /** What the build and the host contribute: the platform the plugin was
      compiled for, and the section names ConfigOpenSection refuses. */
  datatype Host = Host(platform: Platform, refused: set<string>)

  /** The result of a pass: the controller count returned, and every
      parameter written, in order. */
  datatype Outcome = Outcome(slots: nat, writes: seq<Write>)

  // ---------------------------------------------------------------------
  // Section names
  // ---------------------------------------------------------------------

  const SectionPrefix := "AutoConfig"

  /** sprintf(SectionName, "AutoConfig%i", i): the prefix, then the index,
      which can be read back from the name. */
  function SectionName(i: nat): (r: string)
    ensures |r| > |SectionPrefix| && r[..|SectionPrefix|] == SectionPrefix
    ensures AllDigits(r[|SectionPrefix|..]) && DigitsValue(r[|SectionPrefix|..]) == i
  {
    DecimalValue(i);
    assert (SectionPrefix + Decimal(i))[|SectionPrefix|..] == Decimal(i);
    SectionPrefix + Decimal(i)
  }

  /** A section the pass may write to: one of the four controller slots. */
  ghost predicate IsSlot(section: string)
  {
    exists i :: 0 <= i < MaxControllers && section == SectionName(i)
  }

  // ---------------------------------------------------------------------
  // Lines
  // ---------------------------------------------------------------------

  /** The text as a C string: everything before the first NUL. */
  function CString(text: string): (c: string)
    ensures |c| <= |text| && c == text[..|c|]
    ensures '\0' !in c
    ensures c == text || text[|c|] == '\0'
  {
    text[..IndexOf(text, '\0')]
  }

  /** The lines the loop visits, in order: the pieces between '\n's.  An
      empty text has no lines, and nothing after a final '\n' is visited. */
  function Lines(text: string): (ls: seq<string>)
    ensures ls == [] <==> text == []
    ensures forall k :: 0 <= k < |ls| ==> '\n' !in ls[k]
    decreases |text|
  {
    if text == [] then []
    else
      var j := IndexOf(text, '\n');
      if j == |text| then [text] else [text[..j]] + Lines(text[j + 1..])
  }

  /** Lines joined back with '\n'. */
  function Join(ls: seq<string>): (s: string)
  {
    if ls == [] then [] else if |ls| == 1 then ls[0] else ls[0] + "\n" + Join(ls[1..])
  }

  /** Joining the lines gives the text back, less a final '\n' if it had
      one. */
  lemma {:induction false} JoinLines(text: string)
    ensures Join(Lines(text)) == text || Join(Lines(text)) + "\n" == text
    decreases |text|
  {
    if text != [] {
      var j := IndexOf(text, '\n');
      if j < |text| {
        var rest := text[j + 1..];
        assert text == text[..j] + "\n" + rest;
        JoinLines(rest);
        if rest == [] {
          assert Lines(text) == [text[..j]];
        } else {
          assert Lines(rest) != [];
          assert Join(Lines(text)) == text[..j] + "\n" + Join(Lines(rest));
        }
      }
    }
  }

  /** A line ended by '\n' is the first line of the text. */
  lemma LinesCons(head: string, rest: string)
    requires '\n' !in head
    ensures Lines(head + "\n" + rest) == [head] + Lines(rest)
  {
    var text := head + "\n" + rest;
    assert text[..|head|] == head && text[|head| + 1..] == rest by {
      assert text == head + ("\n" + rest);
    }
    assert forall k :: 0 <= k < |head| ==> text[k] == head[k];
    IndexOfUnique(text, '\n', |head|);
  }

  /** Lines without '\n', the last of them non-empty, are exactly the
      lines of their join. */
  lemma {:induction false} LinesJoin(ls: seq<string>)
    requires forall k :: 0 <= k < |ls| ==> '\n' !in ls[k]
    requires ls != [] ==> ls[|ls| - 1] != []
    ensures Lines(Join(ls)) == ls
  {
    if |ls| == 1 {
      IndexOfUnique(ls[0], '\n', |ls[0]|);
    } else if |ls| > 1 {
      var head, tail := ls[0], ls[1..];
      assert Join(ls) == head + "\n" + Join(tail);
      assert forall k :: 0 <= k < |tail| ==> tail[k] == ls[k + 1];
      LinesJoin(tail);
      LinesCons(head, Join(tail));
      assert [head] + tail == ls;
    }
  }

  // ---------------------------------------------------------------------
  // Classifying one line
  // ---------------------------------------------------------------------

  /** What a stripped line is, in the order the loop tests for it. */
  datatype Line =
    | Blank
    | Header(text: string)
    | Param(key: string, value: string)
    | Keyword(word: string)
    | Invalid

  /** A line is stripped, then read as a comment or blank line (empty, or
      starting with ';' or '#'), a section header "[...]" (its inside
      stripped), a parameter split at its first '=' (both sides
      stripped), a keyword ending in ':', or else an invalid line. */
  function Classify(raw: string): (l: Line)
    ensures l.Header? ==> Strip(l.text) == l.text
    ensures l.Param? ==> '=' !in l.key && Strip(l.key) == l.key && Strip(l.value) == l.value
    ensures l.Keyword? ==> l.word != [] && l.word[|l.word| - 1] == ':' && '=' !in l.word && Strip(l.word) == l.word
  {
    ClassifyShape(Strip(raw));
    StripIdempotent(raw);
    ClassifyStripped(Strip(raw))
  }

  /** The tests Classify makes on the stripped line s. */
  function ClassifyStripped(s: string): (l: Line)
  {
    if |s| == 0 || s[0] == ';' || s[0] == '#' then Blank
    else if s[0] == '[' && s[|s| - 1] == ']' then Header(Strip(s[1..|s| - 1]))
    else if IndexOf(s, '=') < |s| then
      var i := IndexOf(s, '=');
      Param(Strip(s[..i]), Strip(s[i + 1..]))
    else if s[|s| - 1] == ':' then Keyword(s)
    else Invalid
  }

  /** A character absent from a string is absent from it stripped. */
  lemma StripLacks(s: string, c: char)
    requires c !in s
    ensures c !in Strip(s)
  {
    StripIsStrippedSlice(s);
    var i, j :| StrippedSlice(s, i, j) && Strip(s) == s[i..j];
    assert forall k :: 0 <= k < j - i ==> s[i..j][k] == s[i + k];
  }

  /** The parts ClassifyStripped cuts out are stripped, and a key or a
      keyword holds no '='. */
  lemma ClassifyShape(s: string)
    ensures ClassifyStripped(s).Header? ==> Strip(ClassifyStripped(s).text) == ClassifyStripped(s).text
    ensures ClassifyStripped(s).Param? ==>
              && '=' !in ClassifyStripped(s).key
              && Strip(ClassifyStripped(s).key) == ClassifyStripped(s).key
              && Strip(ClassifyStripped(s).value) == ClassifyStripped(s).value
    ensures ClassifyStripped(s).Keyword? ==> s != [] && s[|s| - 1] == ':' && '=' !in s
  {
    if s != [] && s[0] != ';' && s[0] != '#' {
      if s[0] == '[' && s[|s| - 1] == ']' {
        StripIdempotent(s[1..|s| - 1]);
      } else {
        var i := IndexOf(s, '=');
        if i < |s| {
          StripLacks(s[..i], '=');
          StripIdempotent(s[..i]);
          StripIdempotent(s[i + 1..]);
        }
      }
    }
  }

  /** Every line of the text, classified. */
  function Parse(text: string): (ls: seq<Line>)
    ensures |ls| == |Lines(text)|
  {
    ClassifyAll(Lines(text))
  }

  function ClassifyAll(raws: seq<string>): (ls: seq<Line>)
    ensures |ls| == |raws|
  {
    if raws == [] then [] else [Classify(raws[0])] + ClassifyAll(raws[1..])
  }

  /** Whitespace around a line never changes what it is. */
  lemma ClassifyIgnoresSurroundingSpace(raw: string)
    ensures Classify(Strip(raw)) == Classify(raw)
  {
    StripIdempotent(raw);
  }

  /** A bracketed name is read back as a header holding the name, stripped. */
  lemma ClassifyHeader(name: string)
    ensures Classify("[" + name + "]") == Header(Strip(name))
  {
    var s := "[" + name + "]";
    assert s[0] == '[' && s[|s| - 1] == ']' && s[1..|s| - 1] == name;
    StrippedSliceIsStrip(s, 0, |s|);
    assert Strip(s) == s by { assert s[0..|s|] == s; }
    assert ClassifyStripped(s) == Header(Strip(name));
  }

  /** The parameter branch of the classification. */
  lemma ParamBranch(s: string, i: nat)
    requires s != [] && s[0] != ';' && s[0] != '#' && !(s[0] == '[' && s[|s| - 1] == ']')
    requires i < |s| && s[i] == '=' && forall k :: 0 <= k < i ==> s[k] != '='
    ensures ClassifyStripped(s) == Param(Strip(s[..i]), Strip(s[i + 1..]))
  {
    IndexOfUnique(s, '=', i);
  }

  /** A string whose last character is not whitespace keeps it when
      stripped. */
  lemma StripKeepsLast(t: string)
    requires t != [] && !IsStripSpace(t[|t| - 1])
    ensures Strip(t) != [] && Strip(t)[|Strip(t)| - 1] == t[|t| - 1]
  {
    StripIsStrippedSlice(t);
    var i, j :| StrippedSlice(t, i, j) && Strip(t) == t[i..j];
    assert j == |t|;
  }

  /** The stripped line "key=value": it starts with the key and '=', what
      follows strips to the stripped value, and it is no header. */
  lemma ParamLine(key: string, value: string)
    requires key != [] ==> !IsStripSpace(key[0])
    requires key != [] && key[0] == '[' ==> Strip(value) == [] || Strip(value)[|Strip(value)| - 1] != ']'
    requires '=' !in key
    ensures var s := Strip(key + "=" + value);
      && |key| < |s| && s[..|key|] == key && s[|key|] == '=' && s[0] == (key + "=")[0]
      && (forall k :: 0 <= k < |key| ==> s[k] != '=')
      && Strip(s[|key| + 1..]) == Strip(value)
      && !(s[0] == '[' && s[|s| - 1] == ']')
  {
    var m := key + "=";
    assert m[0] == (if key == [] then '=' else key[0]);
    StripKeepsMarker(m, value);
    var s := Strip(m + value);
    assert |key| < |s| && s[..|key|] == key && s[|key|] == '=' && s[0] == m[0] by {
      assert forall k :: 0 <= k < |m| ==> s[k] == m[k];
    }
    assert s[|key| + 1..] == s[|m|..];
    assert forall k :: 0 <= k < |key| ==> s[k] == key[k];
    StripIdempotent(m + value);
    StrippedLineEnd(s, |m|, value);
  }

  /** A stripped line longer than its first n characters ends with the
      last character of its stripped tail. */
  lemma StrippedLineEnd(s: string, n: nat, value: string)
    requires n <= |s| && Strip(s) == s && Strip(s[n..]) == Strip(value)
    ensures |s| > n ==> Strip(value) != [] && s[|s| - 1] == Strip(value)[|Strip(value)| - 1]
  {
    if |s| > n {
      var t := s[n..];
      assert t[|t| - 1] == s[|s| - 1];
      StripKeepsLast(t);
    }
  }

  /** "key=value" is read back as a parameter with the key and the value
      stripped, whenever the line is neither blank, comment nor header: the
      key holds no '=', starts with no whitespace, ';' or '#', and when it
      starts with '[' the stripped value does not end with ']'.  The key
      may be empty. */
  lemma ClassifyParam(key: string, value: string)
    requires key != [] ==> !IsStripSpace(key[0]) && key[0] != ';' && key[0] != '#'
    requires key != [] && key[0] == '[' ==> Strip(value) == [] || Strip(value)[|Strip(value)| - 1] != ']'
    requires '=' !in key
    ensures Classify(key + "=" + value) == Param(Strip(key), Strip(value))
  {
    ParamLine(key, value);
    ParamBranch(Strip(key + "=" + value), |key|);
  }

  /** A word ending in ':' with no '=' is read back as a keyword. */
  lemma ClassifyKeyword(word: string)
    requires word != [] && !IsStripSpace(word[0]) && word[0] != ';' && word[0] != '#' && word[0] != '['
    requires '=' !in word && word[|word| - 1] == ':'
    ensures Classify(word) == Keyword(word)
  {
    StrippedSliceIsStrip(word, 0, |word|);
  }

  // ---------------------------------------------------------------------
  // Typed values
  // ---------------------------------------------------------------------

  /** The type a parameter is written with: "device" (any case) as an
      integer through atoi, "plugged" and "mouse" (any case) as a boolean
      true exactly when the value is "true" in any case, anything else as
      the string itself. */
  function TypedValue(key: string, value: string): (v: Value)
    ensures HasKeyType(key, v)
    ensures v.Int? ==> v.i == Atoi(value)
    ensures v.Bool? ==> (v.b <==> EqualsIgnoreCase(value, "true"))
    ensures v.Str? ==> v.s == value
  {
    if EqualsIgnoreCase(key, "device") then Int(Atoi(value))
    else if EqualsIgnoreCase(key, "plugged") || EqualsIgnoreCase(key, "mouse") then
      Bool(EqualsIgnoreCase(value, "true"))
    else Str(value)
  }

  /** The value type each key is written with. */
  predicate HasKeyType(key: string, v: Value)
  {
    if EqualsIgnoreCase(key, "device") then v.Int?
    else if EqualsIgnoreCase(key, "plugged") || EqualsIgnoreCase(key, "mouse") then v.Bool?
    else v.Str?
  }

  /** How a value is written in the database; floats never are. */
  function Render(v: Value): string
    requires !v.Float?
  {
    match v
    case Int(n) => FormatInt(n)
    case Bool(b) => if b then "true" else "false"
    case Str(s) => s
  }

  /** Writing a value of the key's type into the database and reading it
      back gives the value. */
  lemma TypedValueRoundTrip(key: string, v: Value)
    requires HasKeyType(key, v)
    ensures TypedValue(key, Render(v)) == v
  {
    if v.Int? {
      AtoiFormatInt(v.i);
    }
  }

  // ---------------------------------------------------------------------
  // One line of the pass
  // ---------------------------------------------------------------------

  /** The bookkeeping the loop keeps: at most four slots, a score of -1
      exactly while nothing has been opened, and an open section whenever
      body lines are being taken. */
  predicate Valid(m: Matcher)
  {
    && m.count <= MaxControllers
    && m.best >= -1
    && (m.best == -1 <==> m.count == 0)
    && (m.state != NameSearch ==> m.count >= 1)
  }

  /** What one line does: the loop either goes on with a new matcher and
      the writes the line issued, or returns a count at once. */
  datatype Transition = Next(m: Matcher, writes: seq<Write>) | Halt(slots: nat)

  /** One iteration of the loop of auto_set_defaults, on a line of kind l. */
  function Step(h: Host, device: int, name: string, m: Matcher, l: Line): (t: Transition)
    requires Valid(m)
    ensures t.Next? ==> Valid(t.m) && t.m.best >= m.best
    ensures t.Halt? ==> t.slots <= MaxControllers
    ensures t.Next? ==> forall w :: w in t.writes ==> IsSlot(w.section)
  {
    match l
    case Blank => Next(m, [])
    case Invalid => Next(m, [])
    case Header(text) =>
      var score := Score(h.platform, name, text);
      if score > m.best then
        if SectionName(0) in h.refused then Halt(0)
        else Next(Matcher(NameFound, score, 1), [Write(SectionName(0), "device", Int(device))])
      else if m.state == ParamRead then Next(m.(state := NameSearch), [])
      else Next(m, [])
    case Param(key, value) =>
      if m.state == NameSearch then Next(m, [])
      else Next(m.(state := ParamRead), [Write(SectionName(m.count - 1), key, TypedValue(key, value))])
    case Keyword(word) =>
      if m.state == NameSearch then Next(m, [])
      else if word != NextControllerKeyword then Next(m.(state := ParamRead), [])
      else if m.count == MaxControllers then Halt(MaxControllers)
      else if SectionName(m.count) in h.refused then Halt(m.count)
      else Next(Matcher(ParamRead, m.best, m.count + 1), [Write(SectionName(m.count), "device", Int(device))])
  }

  /** The writes w, then an outcome. */
  function Then(w: seq<Write>, o: Outcome): Outcome
  {
    Outcome(o.slots, w + o.writes)
  }

  /** The loop from matcher m over the remaining lines, classified. */
  function Run(h: Host, device: int, name: string, m: Matcher, lines: seq<Line>): (o: Outcome)
    requires Valid(m)
    ensures o.slots <= MaxControllers
    ensures forall w :: w in o.writes ==> IsSlot(w.section)
    decreases |lines|
  {
    if lines == [] then Outcome(if m.best != -1 then m.count else 0, [])
    else
      match Step(h, device, name, m, lines[0])
      case Halt(n) => Outcome(n, [])
      case Next(m', w) => Then(w, Run(h, device, name, m', lines[1..]))
  }

  /** auto_set_defaults: no device name or no readable database file gives
      0 and writes nothing; otherwise the pass over the file's lines. */
  function SetDefaults(h: Host, device: int, name: Option<string>, db: Option<string>): (o: Outcome)
    ensures o.slots <= MaxControllers
    ensures forall w :: w in o.writes ==> IsSlot(w.section)
  {
    if name.None? || db.None? then Outcome(0, [])
    else Run(h, device, name.value, Initial, Parse(CString(db.value)))
  }

  // ---------------------------------------------------------------------
  // The loop as the source writes it
  // ---------------------------------------------------------------------

  /** Lines(text[pos..]) starts with the line that ends at the first '\n'
      from pos (or at the end of the text), and goes on after that '\n'. */
  lemma LinesFrom(text: string, pos: nat, nl: nat)
    requires pos < |text| && nl == pos + IndexOf(text[pos..], '\n')
    ensures Lines(text[pos..]) == [text[pos..nl]] + Lines(text[(if nl < |text| then nl + 1 else |text|)..])
  {
    var t := text[pos..];
    var j := nl - pos;
    assert t != [] && IndexOf(t, '\n') == j;
    assert t[..j] == text[pos..nl];
    if nl < |text| {
      assert t[j + 1..] == text[nl + 1..];
      assert Lines(t) == [t[..j]] + Lines(t[j + 1..]);
    } else {
      assert t[..j] == t;
      assert Lines(t) == [t];
      assert Lines(text[|text|..]) == [];
    }
  }

  /** Parse(text[pos..]) starts with the line that ends at nl, classified. */
  lemma ParseFrom(text: string, pos: nat, nl: nat)
    requires pos < |text| && nl == pos + IndexOf(text[pos..], '\n')
    ensures Parse(text[pos..]) == [Classify(text[pos..nl])] + Parse(text[(if nl < |text| then nl + 1 else |text|)..])
  {
    LinesFrom(text, pos, nl);
    var raws := Lines(text[pos..]);
    assert raws[0] == text[pos..nl];
    assert raws[1..] == Lines(text[(if nl < |text| then nl + 1 else |text|)..]);
  }

  lemma ThenThen(a: seq<Write>, b: seq<Write>, o: Outcome)
    ensures Then(a, Then(b, o)) == Then(a + b, o)
  {
    assert a + (b + o.writes) == (a + b) + o.writes;
  }

  /** The header branch of the loop: a body line has been read since the
      last header, the search starts again; the header is scored, and a
      strictly better score reopens AutoConfig0 with this device. */
  method OnHeader(h: Host, device: int, name: string, m: Matcher, text: string) returns (t: Transition)
    requires Valid(m)
    ensures t == Step(h, device, name, m, Header(text))
  {
    var state := if m.state == ParamRead then NameSearch else m.state;
    var found := CompareName(h.platform, name, text);
    if found > m.best {
      if SectionName(0) in h.refused {
        return Halt(0);
      }
      return Next(Matcher(NameFound, found, 1), [Write(SectionName(0), "device", Int(device))]);
    }
    return Next(m.(state := state), []);
  }

  /** The parameter branch: skipped while searching, else written to the
      section opened last, with the type its key calls for. */
  method OnParam(h: Host, device: int, name: string, m: Matcher, key: string, value: string) returns (t: Transition)
    requires Valid(m)
    ensures t == Step(h, device, name, m, Param(key, value))
  {
    if m.state == NameSearch {
      return Next(m, []);
    }
    var v: Value;
    if EqualsIgnoreCase(key, "device") {
      v := Int(Atoi(value));
    } else if EqualsIgnoreCase(key, "plugged") || EqualsIgnoreCase(key, "mouse") {
      v := Bool(EqualsIgnoreCase(value, "true"));
    } else {
      v := Str(value);
    }
    return Next(m.(state := ParamRead), [Write(SectionName(m.count - 1), key, v)]);
  }

  /** The keyword branch: skipped while searching; __NextController: ends
      the pass when four slots are open, else opens the next slot. */
  method OnKeyword(h: Host, device: int, name: string, m: Matcher, word: string) returns (t: Transition)
    requires Valid(m)
    ensures t == Step(h, device, name, m, Keyword(word))
  {
    if m.state == NameSearch {
      return Next(m, []);
    }
    if word == NextControllerKeyword {
      if m.count == MaxControllers {
        return Halt(m.count);
      }
      if SectionName(m.count) in h.refused {
        return Halt(m.count);
      }
      return Next(Matcher(ParamRead, m.best, m.count + 1), [Write(SectionName(m.count), "device", Int(device))]);
    }
    return Next(m.(state := ParamRead), []);
  }

  /** The tests the loop makes on one line, as pointer work: strip it,
      look at its first and last characters, and search it for '='. */
  method ClassifyLine(raw: string) returns (l: Line)
    ensures l == Classify(raw)
  {
    var lo, hi := StripSpace(raw);
    var s := raw[lo..hi];
    assert Classify(raw) == ClassifyStripped(s);
    if |s| < 1 || s[0] == ';' || s[0] == '#' {
      return Blank;
    }
    if s[0] == '[' && s[|s| - 1] == ']' {
      var inner := s[1..|s| - 1];
      var a, b := StripSpace(inner);
      return Header(inner[a..b]);
    }
    var pivot := FindChar(s, 0, '=');
    assert s[0..] == s;
    if pivot < |s| {
      var k1, k2 := StripSpace(s[..pivot]);
      var v1, v2 := StripSpace(s[pivot + 1..]);
      return Param(s[..pivot][k1..k2], s[pivot + 1..][v1..v2]);
    }
    if s[|s| - 1] == ':' {
      return Keyword(s);
    }
    return Invalid;
  }

  /** One trip round the loop of auto_set_defaults, on the line raw. */
  method ParseLine(h: Host, device: int, name: string, m: Matcher, raw: string) returns (t: Transition)
    requires Valid(m)
    ensures t == Step(h, device, name, m, Classify(raw))
  {
    var l := ClassifyLine(raw);
    match l
    case Blank => t := Next(m, []);
    case Header(text) => t := OnHeader(h, device, name, m, text);
    case Param(key, value) => t := OnParam(h, device, name, m, key, value);
    case Keyword(word) => t := OnKeyword(h, device, name, m, word);
    case Invalid => t := Next(m, []);
  }

  /** auto_set_defaults: the pass walks the text line by line, keeping the
      parse state and the two counters, and collects the writes it makes. */
  method AutoSetDefaults(h: Host, device: int, name: Option<string>, db: Option<string>)
    returns (slots: nat, writes: seq<Write>)
    ensures Outcome(slots, writes) == SetDefaults(h, device, name, db)
  {
    if name.None? || db.None? {
      return 0, [];
    }
    var nul := FindChar(db.value, 0, '\0');
    assert db.value[0..] == db.value;
    var text := db.value[..nul];
    var m := Initial;
    var pos := 0;
    writes := [];
    assert text[0..] == text;
    while pos < |text|
      invariant pos <= |text| && Valid(m)
      invariant SetDefaults(h, device, name, db) == Then(writes, Run(h, device, name.value, m, Parse(text[pos..])))
      decreases |text| - pos
    {
      var nl := FindChar(text, pos, '\n');
      var line := text[pos..nl];
      var next := if nl < |text| then nl + 1 else |text|;
      ParseFrom(text, pos, nl);
      var t := ParseLine(h, device, name.value, m, line);
      match t
      case Halt(n) =>
        assert writes + [] == writes;
        return n, writes;
      case Next(m', w) =>
        ThenThen(writes, w, Run(h, device, name.value, m', Parse(text[next..])));
        writes := writes + w;
        m := m';
        pos := next;
    }
    assert text[pos..] == [];
    assert writes + [] == writes;
    slots := if m.best != -1 then m.count else 0;
  }

  // ---------------------------------------------------------------------
  // Properties of the pass
  // ---------------------------------------------------------------------

  /** Run, one line further. */
  lemma RunNext(h: Host, device: int, name: string, m: Matcher, lines: seq<Line>, m': Matcher, w: seq<Write>)
    requires Valid(m) && lines != [] && Step(h, device, name, m, lines[0]) == Next(m', w)
    ensures Valid(m')
    ensures Run(h, device, name, m, lines) == Then(w, Run(h, device, name, m', lines[1..]))
  {
  }

  /** Tie-break: a header is adopted exactly when it scores strictly more
      than the best so far; adopting reopens AutoConfig0 with the device
      index and restarts the count at 1, and a header that is not adopted
      writes nothing and keeps the best score and the count. */
  lemma AdoptIffBetter(h: Host, device: int, name: string, m: Matcher, text: string)
    requires Valid(m) && SectionName(0) !in h.refused
    ensures Step(h, device, name, m, Header(text)).Next?
    ensures Step(h, device, name, m, Header(text)).m.best > m.best <==> Score(h.platform, name, text) > m.best
    ensures Step(h, device, name, m, Header(text)).m.best > m.best ==>
              Step(h, device, name, m, Header(text)) ==
                Next(Matcher(NameFound, Score(h.platform, name, text), 1), [Write(SectionName(0), "device", Int(device))])
    ensures Step(h, device, name, m, Header(text)).m.best == m.best ==>
              Step(h, device, name, m, Header(text)).writes == [] && Step(h, device, name, m, Header(text)).m.count == m.count
  {
  }

  /** A header that is not adopted writes nothing; it starts a new search
      only after a body line. */
  lemma StepLosingHeader(h: Host, device: int, name: string, m: Matcher, text: string)
    requires Valid(m) && Score(h.platform, name, text) <= m.best
    ensures Step(h, device, name, m, Header(text)) == Next(if m.state == ParamRead then m.(state := NameSearch) else m, [])
  {
  }

  /** While searching, parameter and keyword lines are dropped. */
  lemma SkippedWhileSearching(h: Host, device: int, name: string, m: Matcher, l: Line)
    requires Valid(m) && m.state == NameSearch && (l.Param? || l.Keyword?)
    ensures Step(h, device, name, m, l) == Next(m, [])
  {
  }

  /** Blank, comment and invalid lines change nothing. */
  lemma InertLines(h: Host, device: int, name: string, m: Matcher, l: Line)
    requires Valid(m) && (l.Blank? || l.Invalid?)
    ensures Step(h, device, name, m, l) == Next(m, [])
  {
  }

  /** A keyword other than __NextController: under an adopted header is
      dropped, but still counts as a body line. */
  lemma UnknownKeywordIsBody(h: Host, device: int, name: string, m: Matcher, word: string)
    requires Valid(m) && m.state != NameSearch && word != NextControllerKeyword
    ensures Step(h, device, name, m, Keyword(word)) == Next(m.(state := ParamRead), [])
  {
  }

  /** __NextController: under an adopted header with a free slot opens it. */
  lemma StepNextController(h: Host, device: int, name: string, m: Matcher)
    requires Valid(m) && m.state != NameSearch && m.count < MaxControllers && SectionName(m.count) !in h.refused
    ensures Step(h, device, name, m, Keyword(NextControllerKeyword)) ==
              Next(Matcher(ParamRead, m.best, m.count + 1), [Write(SectionName(m.count), "device", Int(device))])
  {
  }

  /** A header that is not adopted right after an adopted one (no body
      line between them) shares that header's body: the next parameter is
      still written into the open section. */
  lemma SharedBody(h: Host, device: int, name: string, m: Matcher, text: string, key: string, value: string, rest: seq<Line>)
    requires Valid(m) && m.state == NameFound && Score(h.platform, name, text) <= m.best
    ensures Run(h, device, name, m, [Header(text), Param(key, value)] + rest) ==
              Then([Write(SectionName(m.count - 1), key, TypedValue(key, value))], Run(h, device, name, m.(state := ParamRead), rest))
  {
    var lines := [Header(text), Param(key, value)] + rest;
    assert lines[1..] == [Param(key, value)] + rest && lines[1..][1..] == rest;
    var m2 := m.(state := ParamRead);
    var w := [Write(SectionName(m.count - 1), key, TypedValue(key, value))];
    RunNext(h, device, name, m, lines, m, []);
    RunNext(h, device, name, m, lines[1..], m2, w);
    var o := Run(h, device, name, m2, rest);
    assert [] + (w + o.writes) == w + o.writes;
  }

  /** After a body line, a header that is not adopted starts a new search,
      and the parameters under it are dropped. */
  lemma NewSearchAfterBody(h: Host, device: int, name: string, m: Matcher, text: string, param: Line, rest: seq<Line>)
    requires Valid(m) && m.state == ParamRead && Score(h.platform, name, text) <= m.best && param.Param?
    ensures Run(h, device, name, m, [Header(text), param] + rest) == Run(h, device, name, m.(state := NameSearch), rest)
  {
    var lines := [Header(text), param] + rest;
    assert lines[1..] == [param] + rest && lines[1..][1..] == rest;
    var m1 := m.(state := NameSearch);
    RunNext(h, device, name, m, lines, m1, []);
    RunNext(h, device, name, m1, lines[1..], m1, []);
    var o := Run(h, device, name, m1, rest);
    assert [] + ([] + o.writes) == o.writes;
  }

  /** Once a slot is open, the pass reports at least one, unless
      AutoConfig0 cannot be reopened for a better header. */
  lemma {:induction false} RunKeepsSlot(h: Host, device: int, name: string, m: Matcher, lines: seq<Line>)
    requires Valid(m) && m.count >= 1 && SectionName(0) !in h.refused
    ensures Run(h, device, name, m, lines).slots >= 1
    decreases |lines|
  {
    if lines != [] {
      match Step(h, device, name, m, lines[0])
      case Halt(n) =>
      case Next(m', w) =>
        RunKeepsSlot(h, device, name, m', lines[1..]);
    }
  }

  /** A header whose words are all in the device name. */
  predicate Matches(h: Host, name: string, l: Line)
  {
    l.Header? && Score(h.platform, name, l.text) >= 0
  }

  /** The pass reports no slot exactly when no header matches the device,
      or AutoConfig0 cannot be opened; and then it writes nothing. */
  lemma {:induction false} ZeroSlots(h: Host, device: int, name: string, lines: seq<Line>)
    ensures Run(h, device, name, Initial, lines).slots == 0 <==>
              (SectionName(0) in h.refused || forall k :: 0 <= k < |lines| ==> !Matches(h, name, lines[k]))
    ensures Run(h, device, name, Initial, lines).slots == 0 ==> Run(h, device, name, Initial, lines).writes == []
    decreases |lines|
  {
    if lines != [] {
      var rest := lines[1..];
      if Matches(h, name, lines[0]) {
        if SectionName(0) !in h.refused {
          var t := Step(h, device, name, Initial, lines[0]);
          RunKeepsSlot(h, device, name, t.m, rest);
        }
      } else {
        assert Step(h, device, name, Initial, lines[0]) == Next(Initial, []);
        ZeroSlots(h, device, name, rest);
        var o := Run(h, device, name, Initial, rest);
        assert Run(h, device, name, Initial, lines) == o by {
          assert [] + o.writes == o.writes;
        }
        assert (forall k :: 0 <= k < |lines| ==> !Matches(h, name, lines[k])) <==>
               (forall k :: 0 <= k < |rest| ==> !Matches(h, name, rest[k])) by {
          assert forall k :: 0 <= k < |rest| ==> rest[k] == lines[k + 1];
        }
      }
    }
  }

  /** auto_set_defaults returns 0 exactly when there is no device name, no
      readable database, no header in it that matches the device, or
      AutoConfig0 cannot be opened; and then it writes nothing. */
  lemma SetDefaultsZero(h: Host, device: int, name: Option<string>, db: Option<string>)
    ensures SetDefaults(h, device, name, db).slots == 0 <==>
              (name.None? || db.None? || SectionName(0) in h.refused ||
               forall k :: 0 <= k < |Parse(CString(db.value))| ==> !Matches(h, name.value, Parse(CString(db.value))[k]))
    ensures SetDefaults(h, device, name, db).slots == 0 ==> SetDefaults(h, device, name, db).writes == []
  {
    if name.Some? && db.Some? {
      ZeroSlots(h, device, name.value, Parse(CString(db.value)));
    }
  }

  /** The device writes that open slots from .. to - 1, in order. */
  function DeviceWrites(device: int, from: nat, to: nat): (ws: seq<Write>)
    decreases to - from
  {
    if from >= to then [] else [Write(SectionName(from), "device", Int(device))] + DeviceWrites(device, from + 1, to)
  }

  /** Hard cap: __NextController: with four slots open ends the pass with
      4, whatever follows. */
  lemma CapEndsPass(h: Host, device: int, name: string, m: Matcher, rest: seq<Line>)
    requires Valid(m) && m.state != NameSearch && m.count == MaxControllers
    ensures Run(h, device, name, m, [Keyword(NextControllerKeyword)] + rest) == Outcome(MaxControllers, [])
  {
    assert ([Keyword(NextControllerKeyword)] + rest)[0] == Keyword(NextControllerKeyword);
  }

  /** Under an adopted header, a run of __NextController: lines one longer
      than the free slots opens every free slot and then ends the pass with
      4, ignoring everything after it. */
  lemma {:induction false} NextControllersFill(h: Host, device: int, name: string, m: Matcher, lines: seq<Line>)
    requires Valid(m) && m.state != NameSearch
    requires forall i :: m.count <= i < MaxControllers ==> SectionName(i) !in h.refused
    requires |lines| > MaxControllers - m.count
    requires forall k :: 0 <= k <= MaxControllers - m.count ==> lines[k] == Keyword(NextControllerKeyword)
    ensures Run(h, device, name, m, lines) == Outcome(MaxControllers, DeviceWrites(device, m.count, MaxControllers))
    decreases MaxControllers - m.count
  {
    if m.count == MaxControllers {
      CapEndsPass(h, device, name, m, lines[1..]);
      assert lines == [Keyword(NextControllerKeyword)] + lines[1..];
    } else {
      var m' := Matcher(ParamRead, m.best, m.count + 1);
      var w := [Write(SectionName(m.count), "device", Int(device))];
      StepNextController(h, device, name, m);
      var rest := lines[1..];
      RunNext(h, device, name, m, lines, m', w);
      assert forall k :: 0 <= k <= MaxControllers - m'.count ==> rest[k] == lines[k + 1];
      NextControllersFill(h, device, name, m', rest);
      assert DeviceWrites(device, m.count, MaxControllers) == w + DeviceWrites(device, m'.count, MaxControllers);
    }
  }

  /** A better header reopens AutoConfig0 and restarts the count, but the
      slots opened under the earlier header keep what was written to them:
      here AutoConfig1 is written and the pass still reports 1. */
  lemma StaleSlotsSurvive(h: Host, device: int, name: string, first: string, better: string)
    requires SectionName(0) !in h.refused && SectionName(1) !in h.refused
    requires 0 <= Score(h.platform, name, first) < Score(h.platform, name, better)
    ensures Run(h, device, name, Initial, [Header(first), Keyword(NextControllerKeyword), Header(better)]) ==
              Outcome(1, [Write(SectionName(0), "device", Int(device)),
                          Write(SectionName(1), "device", Int(device)),
                          Write(SectionName(0), "device", Int(device))])
  {
    var lines := [Header(first), Keyword(NextControllerKeyword), Header(better)];
    var d0 := Write(SectionName(0), "device", Int(device));
    var d1 := Write(SectionName(1), "device", Int(device));
    var m1 := Matcher(NameFound, Score(h.platform, name, first), 1);
    var m2 := m1.(state := ParamRead, count := 2);
    var m3 := Matcher(NameFound, Score(h.platform, name, better), 1);
    RunNext(h, device, name, Initial, lines, m1, [d0]);
    assert lines[1..] == [Keyword(NextControllerKeyword), Header(better)] && lines[1..][1..] == [Header(better)];
    RunNext(h, device, name, m1, lines[1..], m2, [d1]);
    RunNext(h, device, name, m2, lines[1..][1..], m3, [d0]);
    assert Run(h, device, name, m3, lines[1..][1..][1..]) == Outcome(1, []);
    assert [d0] + ([d1] + ([d0] + [])) == [d0, d1, d0];
  }

  /** Run, two lines further. */
  lemma RunTwo(h: Host, device: int, name: string, m: Matcher, l1: Line, l2: Line, rest: seq<Line>,
               m1: Matcher, w1: seq<Write>, m2: Matcher, w2: seq<Write>)
    requires Valid(m) && Step(h, device, name, m, l1) == Next(m1, w1)
    requires Valid(m1) && Step(h, device, name, m1, l2) == Next(m2, w2)
    ensures Valid(m2)
    ensures Run(h, device, name, m, [l1, l2] + rest) == Then(w1 + w2, Run(h, device, name, m2, rest))
  {
    var lines := [l1, l2] + rest;
    assert lines[0] == l1 && lines[1..] == [l2] + rest;
    RunNext(h, device, name, m, lines, m1, w1);
    RunNext(h, device, name, m1, [l2] + rest, m2, w2);
    assert ([l2] + rest)[1..] == rest;
    ThenThen(w1, w2, Run(h, device, name, m2, rest));
  }

  /** A header that beats the best so far, then a parameter: AutoConfig0
      is reopened with the device index and the parameter is written
      there. */
  lemma AdoptThenWrite(h: Host, device: int, name: string, m: Matcher, text: string, key: string, v: string)
    requires Valid(m) && SectionName(0) !in h.refused && Score(h.platform, name, text) > m.best
    ensures var m' := Matcher(NameFound, Score(h.platform, name, text), 1);
      && Valid(m')
      && Step(h, device, name, m, Header(text)) == Next(m', [Write(SectionName(0), "device", Int(device))])
      && Step(h, device, name, m', Param(key, v)) == Next(m'.(state := ParamRead), [Write(SectionName(0), key, TypedValue(key, v))])
  {
  }

  /** A later header that scores better takes AutoConfig0 over: the
      parameters under both headers are written there in file order, so
      the later header's value of a shared key is the one the section keeps. */
  lemma BetterHeaderTakesOver(h: Host, device: int, name: string, first: string, better: string,
                              key: string, v1: string, v2: string)
    requires SectionName(0) !in h.refused
    requires 0 <= Score(h.platform, name, first) < Score(h.platform, name, better)
    ensures Run(h, device, name, Initial, [Header(first), Param(key, v1), Header(better), Param(key, v2)]) ==
              Outcome(1, [Write(SectionName(0), "device", Int(device)),
                          Write(SectionName(0), key, TypedValue(key, v1)),
                          Write(SectionName(0), "device", Int(device)),
                          Write(SectionName(0), key, TypedValue(key, v2))])
  {
    var d0 := Write(SectionName(0), "device", Int(device));
    var w1 := Write(SectionName(0), key, TypedValue(key, v1));
    var w2 := Write(SectionName(0), key, TypedValue(key, v2));
    var m1 := Matcher(NameFound, Score(h.platform, name, first), 1);
    var m2 := Matcher(NameFound, Score(h.platform, name, better), 1);
    AdoptThenWrite(h, device, name, Initial, first, key, v1);
    AdoptThenWrite(h, device, name, m1.(state := ParamRead), better, key, v2);
    var tail := [Header(better), Param(key, v2)];
    assert [Header(first), Param(key, v1), Header(better), Param(key, v2)] == [Header(first), Param(key, v1)] + tail;
    RunTwo(h, device, name, Initial, Header(first), Param(key, v1), tail, m1, [d0], m1.(state := ParamRead), [w1]);
    assert tail == [Header(better), Param(key, v2)] + [];
    RunTwo(h, device, name, m1.(state := ParamRead), Header(better), Param(key, v2), [], m2, [d0], m2.(state := ParamRead), [w2]);
    assert Run(h, device, name, m2.(state := ParamRead), []) == Outcome(1, []);
    assert [d0] + [w1] + ([d0] + [w2] + []) == [d0, w1, d0, w2];
  }

}
