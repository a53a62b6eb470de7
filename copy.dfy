/** auto_copy_inputconfig and CopyParamCallback (src/autoconfig.c:63-128):
    copying one configuration section into another, over an abstract host
    configuration store. */
module ConfigCopy {
  import opened AutoConfig

  /** A section maps parameter names to typed values; the store maps
      section names to sections. */
  type Section = map<string, Value>
  type Sections = map<string, Section>

  /** The ways the host store can refuse a request: sections it will not
      open, sections whose parameters it will not set, and sections whose
      parameters it will not list. */
  datatype Faults = Faults(refused: set<string>, locked: set<string>, unlistable: set<string>)

  /** ConfigOpenSection on success: a missing section is created empty. */
  function Opened(s: Sections, name: string): (r: Sections)
    ensures name in r && r.Keys == s.Keys + {name}
    ensures name in s ==> r == s
    ensures name !in s ==> r[name] == map[]
    ensures forall n :: n in s ==> r[n] == s[n]
  {
    if name in s then s else s[name := map[]]
  }

  /** What auto_copy_inputconfig returns and what the store holds after it.
      Each step can fail: opening the source, opening the destination,
      setting 'name' (only attempted when a name is given) and listing the
      source.  Once listing starts, every source parameter is set in the
      destination under its own key, and a failed set is ignored. */
  datatype CopyResult = CopyResult(ok: bool, sections: Sections)

  function Copy(f: Faults, s: Sections, src: string, dst: string, joyName: Option<string>): (r: CopyResult)
    ensures r.ok ==> src in r.sections && dst in r.sections
    ensures r.sections.Keys <= s.Keys + {src, dst}
    ensures forall n :: n in s && n != dst ==> n in r.sections && r.sections[n] == s[n]
  {
    if src in f.refused then CopyResult(false, s)
    else
      var s1 := Opened(s, src);
      if dst in f.refused then CopyResult(false, s1)
      else
        var s2 := Opened(s1, dst);
        if joyName.Some? && dst in f.locked then CopyResult(false, s2)
        else
          var s3 := if joyName.Some? then s2[dst := s2[dst]["name" := Str(joyName.value)]] else s2;
          if src in f.unlistable then CopyResult(false, s3)
          else if dst in f.locked then CopyResult(true, s3)
          else CopyResult(true, s3[dst := s3[dst] + s3[src]])
  }

  /** The destination after the first keys of the source listing have been
      copied into it. */
  function Merge(d: Section, s: Section, done: set<string>): (r: Section)
    requires done <= s.Keys
    ensures r.Keys == d.Keys + done
    ensures forall k :: k in done ==> r[k] == s[k]
    ensures forall k :: k in d && k !in done ==> r[k] == d[k]
  {
    map k | k in d.Keys + done :: if k in done then s[k] else d[k]
  }

  /** Copying one more key of the listing. */
  lemma MergeOneMore(d: Section, s: Section, done: set<string>, key: string)
    requires done <= s.Keys && key in s
    ensures Merge(d, s, done)[key := s[key]] == Merge(d, s, done + {key})
  {
  }

  /** Copying a section's keys onto itself leaves it as it is. */
  lemma MergeSelf(s: Section, done: set<string>)
    requires done <= s.Keys
    ensures Merge(s, s, done) == s
  {
  }

  /** The copy reports failure exactly when one of the four host requests
      it checks is refused: opening the source, opening the destination,
      setting 'name' when a name is given, or listing the source. */
  lemma CopyFailsIff(f: Faults, s: Sections, src: string, dst: string, joyName: Option<string>)
    ensures !Copy(f, s, src, dst, joyName).ok <==>
      || src in f.refused
      || dst in f.refused
      || (joyName.Some? && dst in f.locked)
      || src in f.unlistable
  {
  }

  /** A successful copy into a writable section sets every source parameter
      in the destination, under the same key and with the same typed
      value. */
  lemma CopyCopiesSource(f: Faults, s: Sections, src: string, dst: string, joyName: Option<string>)
    requires Copy(f, s, src, dst, joyName).ok && dst !in f.locked && src != dst
    ensures forall k :: src in s && k in s[src] ==> Copy(f, s, src, dst, joyName).sections[dst][k] == s[src][k]
  {
  }

  /** The device name given to the copy ends up in 'name', unless the source
      section has a 'name' of its own, which is copied over it. */
  lemma CopyName(f: Faults, s: Sections, src: string, dst: string, joyName: Option<string>)
    requires Copy(f, s, src, dst, joyName).ok && joyName.Some? && src != dst
    ensures var d := Copy(f, s, src, dst, joyName).sections[dst];
      && "name" in d
      && d["name"] == if src in s && "name" in s[src] then s[src]["name"] else Str(joyName.value)
  {
  }

  /** Parameters of the destination that the source does not have, other
      than an overridden 'name', keep their values. */
  lemma CopyKeepsDestination(f: Faults, s: Sections, src: string, dst: string, joyName: Option<string>, k: string)
    requires Copy(f, s, src, dst, joyName).ok
    requires dst in s && k in s[dst]
    requires src !in s || k !in s[src]
    requires joyName.None? || k != "name"
    ensures Copy(f, s, src, dst, joyName).sections[dst][k] == s[dst][k]
  {
  }

  /** The destination's parameters after a successful copy into a writable
      section: its own, the source's, and 'name' when a name is given. */
  lemma CopyDestinationKeys(f: Faults, s: Sections, src: string, dst: string, joyName: Option<string>)
    requires Copy(f, s, src, dst, joyName).ok && dst !in f.locked
    ensures Copy(f, s, src, dst, joyName).sections[dst].Keys ==
      (if dst in s then s[dst].Keys else {})
      + (if src in s then s[src].Keys else {})
      + (if joyName.Some? then {"name"} else {})
  {
  }

  /** Copying a section onto itself without a name changes nothing beyond
      opening it. */
  lemma CopyOntoItself(f: Faults, s: Sections, src: string)
    requires Copy(f, s, src, src, None).ok
    ensures Copy(f, s, src, src, None).sections == Opened(s, src)
  {
    var s1 := Opened(s, src);
    assert s1[src] + s1[src] == s1[src];
    assert s1[src := s1[src]] == s1;
  }

  /** The host configuration store, as seen through the calls the copy makes:
      ConfigOpenSection, ConfigSetParameter, ConfigGetParameter and
      ConfigListParameters. */
  class ConfigStore {
    var sections: Sections
    const faults: Faults

    constructor (sections: Sections, faults: Faults)
      ensures this.sections == sections && this.faults == faults
    {
      this.sections := sections;
      this.faults := faults;
    }

    /** ConfigOpenSection. */
    method OpenSection(name: string) returns (ok: bool)
      modifies this
      ensures ok == (name !in faults.refused)
      ensures sections == if ok then Opened(old(sections), name) else old(sections)
    {
      ok := name !in faults.refused;
      if ok && name !in sections {
        sections := sections[name := map[]];
      }
    }

    /** ConfigSetParameter: the value, with its type, replaces or adds the
        parameter. */
    method SetParameter(section: string, key: string, v: Value) returns (ok: bool)
      requires section in sections
      modifies this
      ensures ok == (section !in faults.locked)
      ensures sections == if ok then old(sections)[section := old(sections)[section][key := v]] else old(sections)
    {
      ok := section !in faults.locked;
      if ok {
        sections := sections[section := sections[section][key := v]];
      }
    }

    /** ConfigGetParameter: the value of a parameter, when there is one. */
    function GetParameter(section: string, key: string): (r: Option<Value>)
      reads this
      ensures r.Some? <==> section in sections && key in sections[section]
      ensures r.Some? ==> r.value == sections[section][key]
    {
      if section in sections && key in sections[section] then Some(sections[section][key]) else None
    }

    /** CopyParamCallback: read one parameter of the source and set it, with
        the same key and type, in the destination.  A failed set is
        ignored. */
    method CopyParam(src: string, dst: string, key: string)
      requires src in sections && dst in sections && key in sections[src]
      modifies this
      ensures sections == if dst in faults.locked then old(sections)
                          else old(sections)[dst := old(sections)[dst][key := old(sections)[src][key]]]
    {
      var v := GetParameter(src, key);
      if v.Some? {
        var _ := SetParameter(dst, key, v.value);
      }
    }

    /** auto_copy_inputconfig: open both sections, set 'name' when a device
        name is given, then copy every source parameter. */
    method CopyInputConfig(src: string, dst: string, joyName: Option<string>) returns (ok: bool)
      modifies this
      ensures CopyResult(ok, sections) == Copy(faults, old(sections), src, dst, joyName)
    {
      ok := OpenSection(src);
      if !ok {
        return;
      }
      ok := OpenSection(dst);
      if !ok {
        return;
      }
      if joyName.Some? {
        ok := SetParameter(dst, "name", Str(joyName.value));
        if !ok {
          return;
        }
      }
      if src in faults.unlistable {
        ok := false;
        return;
      }
      CopyAll(src, dst);
    }

    /** ConfigListParameters with CopyParamCallback: every parameter of the
        source, in the host's order, is copied into the destination. */
    method CopyAll(src: string, dst: string)
      requires src in sections && dst in sections
      modifies this
      ensures sections == if dst in faults.locked then old(sections)
                          else old(sections)[dst := old(sections)[dst] + old(sections)[src]]
    {
      ghost var start := sections;
      ghost var from := sections[src];
      var todo := sections[src].Keys;
      assert from.Keys - todo == {};
      assert Merge(start[dst], from, {}) == start[dst];
      assert start[dst := start[dst]] == start;
      while todo != {}
        invariant todo <= from.Keys
        invariant sections == if dst in faults.locked then start
                              else start[dst := Merge(start[dst], from, from.Keys - todo)]
        invariant src in sections && sections[src] == from
        decreases todo
      {
        var key :| key in todo;
        ghost var done := from.Keys - todo;
        CopyParam(src, dst, key);
        todo := todo - {key};
        assert from.Keys - todo == done + {key};
        MergeOneMore(start[dst], from, done, key);
        if src == dst {
          MergeSelf(from, done + {key});
        }
      }
      assert from.Keys - todo == from.Keys;
      assert Merge(start[dst], from, from.Keys) == start[dst] + from;
    }
  }
}
