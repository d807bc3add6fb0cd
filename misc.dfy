// The naming and path logic of the transfer pipeline: the alyx file name of
// a spikeglx ephys file, the option prompt, the transfer comparison and the
// session path rewrites of renaming and remote transfer.
module Misc {
  import opened Wrappers
  import opened Strings

  // ---------------------------------------------------- get_new_filename

  const Root := "_spikeglx_ephysData"

  function Digit(d: nat): (c: char)
    requires d < 10
    ensures '0' <= c <= '9' && c as int == '0' as int + d
  {
    ('0' as int + d) as char
  }

  /** The run tag `_g<g>_t<t>` of a spikeglx file name. */
  function Tag(g: nat, t: nat): (r: string)
    requires g < 10 && t < 10
  {
    "_g" + [Digit(g)] + "_t" + [Digit(t)]
  }

  /** The tag tried at step `p == 10 * g + t` of the g-major search. */
  function TagAt(p: nat): (r: string)
    requires p < 100
    ensures |r| == 6 && r[0] == '_' && r[1] == 'g' && r[3] == '_' && r[4] == 't'
    ensures r == "_g" + [Digit(p / 10)] + "_t" + [Digit(p % 10)]
  {
    Tag(p / 10, p % 10)
  }

  /** Different steps of the search look for different tags. */
  lemma TagAtInjective(p: nat, q: nat)
    requires p < 100 && q < 100 && p != q
    ensures TagAt(p) != TagAt(q)
  {
    assert TagAt(p)[2] == Digit(p / 10) && TagAt(p)[5] == Digit(p % 10);
    assert TagAt(q)[2] == Digit(q / 10) && TagAt(q)[5] == Digit(q % 10);
    assert p == 10 * (p / 10) + p % 10 && q == 10 * (q / 10) + q % 10;
  }

  /** Step `10 * g + t` of the search tries `Tag(g, t)`. */
  lemma StepTag(g: nat, t: nat, step: nat)
    requires g < 10 && t < 10 && step == 10 * g + t
    ensures step < 100 && TagAt(step) == Tag(g, t)
  {
    assert step / 10 == g && step % 10 == t;
  }

  /**
   * The last tag found among the first `k` steps of the search: it occurs
   * in `f` and no later step's tag does; none found means no step's does.
   */
  function LastTag(f: string, k: nat): (r: Option<nat>)
    requires k <= 100
    ensures r.Some? ==> r.value < k && Contains(f, TagAt(r.value))
    ensures r.Some? ==> forall q :: r.value < q < k ==> !Contains(f, TagAt(q))
    ensures r.None? ==> forall q :: 0 <= q < k ==> !Contains(f, TagAt(q))
  {
    if k == 0 then None
    else if Contains(f, TagAt(k - 1)) then Some(k - 1)
    else LastTag(f, k - 1)
  }

  function TagOf(o: Option<nat>): (r: Option<string>)
    requires o.Some? ==> o.value < 100
  {
    match o
    case None => None
    case Some(p) => Some(TagAt(p))
  }

  /** Why no name is produced: no run tag, or a local never assigned. */
  datatype NameError = NotImplemented | UnboundLocal(name: string)

  /** The extension: `bin` wins over `meta`. */
  function ExtOf(f: string): (r: Option<string>)
    ensures r == Some("bin") <==> Contains(f, ".bin")
    ensures r == Some("meta") <==> !Contains(f, ".bin") && Contains(f, ".meta")
    ensures r == None <==> !Contains(f, ".bin") && !Contains(f, ".meta")
  {
    if Contains(f, ".bin") then Some("bin")
    else if Contains(f, ".meta") then Some("meta")
    else None
  }

  /** The probe: `imec0` wins over `imec1`, which wins over `imec`. */
  function ProbeOf(f: string): (r: Option<string>)
    ensures r == Some("imec0") <==> Contains(f, ".imec0.")
    ensures r == Some("imec1") <==> !Contains(f, ".imec0.") && Contains(f, ".imec1.")
    ensures r == Some("imec") <==> !Contains(f, ".imec0.") && !Contains(f, ".imec1.") && Contains(f, ".imec.")
    ensures r == None <==> !Contains(f, ".imec0.") && !Contains(f, ".imec1.") && !Contains(f, ".imec.")
  {
    if Contains(f, ".imec0.") then Some("imec0")
    else if Contains(f, ".imec1.") then Some("imec1")
    else if Contains(f, ".imec.") then Some("imec")
    else None
  }

  /** The band: `ap` wins over `lf`. */
  function BandOf(f: string): (r: Option<string>)
    ensures r == Some("ap") <==> Contains(f, ".ap.")
    ensures r == Some("lf") <==> !Contains(f, ".ap.") && Contains(f, ".lf.")
    ensures r == None <==> !Contains(f, ".ap.") && !Contains(f, ".lf.")
  {
    if Contains(f, ".ap.") then Some("ap")
    else if Contains(f, ".lf.") then Some("lf")
    else None
  }

  /**
   * get_new_filename as a function: the root and the last run tag, then
   * `nidq` and the extension for a nidq file, otherwise probe, band and
   * extension; a part that was never assigned is reported when the join
   * first reads it.
   */
  function NewFilename(f: string): (r: Result<string, NameError>)
    ensures r == Err(NotImplemented) <==> LastTag(f, 100).None?
  {
    match LastTag(f, 100)
    case None => Err(NotImplemented)
    case Some(p) =>
      var head := Root + TagAt(p);
      var ext := ExtOf(f);
      if Contains(f, ".nidq.") then
        if ext.None? then Err(UnboundLocal("ext"))
        else Ok(JoinWith(".", [head, "nidq", ext.value]))
      else
        var probe := ProbeOf(f);
        var band := BandOf(f);
        if probe.None? then Err(UnboundLocal("probe"))
        else if band.None? then Err(UnboundLocal("freq"))
        else if ext.None? then Err(UnboundLocal("ext"))
        else Ok(JoinWith(".", [head, probe.value, band.value, ext.value]))
  }
  /** One more step of the search replaces the tag found so far iff its own tag occurs. */
  lemma LastTagStep(f: string, p: nat, tag: string)
    requires p < 100 && tag == TagAt(p)
    ensures TagOf(LastTag(f, p + 1)) == if Contains(f, tag) then Some(tag) else TagOf(LastTag(f, p))
  {
  }

  /** The tag search: every `_g<g>_t<t>` in g-major order, keeping the last found. */
  method FindTag(filename: string) returns (gt: Option<string>)
    ensures gt == TagOf(LastTag(filename, 100))
  {
    gt := None;
    ghost var step := 0;
    for g := 0 to 10
      invariant step == 10 * g && gt == TagOf(LastTag(filename, step))
    {
      for t := 0 to 10
        invariant step == 10 * g + t && gt == TagOf(LastTag(filename, step))
      {
        var tag := Tag(g, t);
        StepTag(g, t, step);
        LastTagStep(filename, step, tag);
        if Contains(filename, tag) {
          gt := Some(tag);
        }
        step := step + 1;
      }
    }
  }

  /**
   * get_new_filename: find the run tag, then pick the extension, probe and
   * band, returning the nidq name as soon as the file is seen to be one.
   */
  method GetNewFilename(filename: string) returns (r: Result<string, NameError>)
    ensures r == NewFilename(filename)
  {
    var gt := FindTag(filename);
    if gt.None? {
      return Err(NotImplemented);
    }
    var ext: Option<string> := None;
    if Contains(filename, ".bin") {
      ext := Some("bin");
    } else if Contains(filename, ".meta") {
      ext := Some("meta");
    }
    if Contains(filename, ".nidq.") {
      if ext.None? {
        return Err(UnboundLocal("ext"));
      }
      return Ok(JoinWith(".", [Root + gt.value, "nidq", ext.value]));
    }
    var probe: Option<string> := None;
    if Contains(filename, ".imec0.") {
      probe := Some("imec0");
    } else if Contains(filename, ".imec1.") {
      probe := Some("imec1");
    } else if Contains(filename, ".imec.") {
      probe := Some("imec");
    }
    var freq: Option<string> := None;
    if Contains(filename, ".ap.") {
      freq := Some("ap");
    } else if Contains(filename, ".lf.") {
      freq := Some("lf");
    }
    if probe.None? {
      return Err(UnboundLocal("probe"));
    }
    if freq.None? {
      return Err(UnboundLocal("freq"));
    }
    if ext.None? {
      return Err(UnboundLocal("ext"));
    }
    return Ok(JoinWith(".", [Root + gt.value, probe.value, freq.value, ext.value]));
  }

  /**
   * A name is produced only from a tagged file; it starts with the root
   * immediately followed by the last tag of the search, which occurs in
   * the input. An untagged file raises NotImplementedError.
   */
  lemma NewFilenameTag(f: string)
    ensures NewFilename(f) == Err(NotImplemented) <==> forall q :: 0 <= q < 100 ==> !Contains(f, TagAt(q))
    ensures NewFilename(f).Ok? ==>
      exists p :: 0 <= p < 100 && Contains(f, TagAt(p)) && Root + TagAt(p) <= NewFilename(f).value &&
        forall q :: p < q < 100 ==> !Contains(f, TagAt(q))
  {
    if NewFilename(f).Ok? {
      var p := LastTag(f, 100).value;
      var fields := if Contains(f, ".nidq.") then ["nidq", ExtOf(f).value]
        else [ProbeOf(f).value, BandOf(f).value, ExtOf(f).value];
      assert NewFilename(f).value == JoinWith(".", [Root + TagAt(p)] + fields);
      assert ([Root + TagAt(p)] + fields)[1..] == fields;
      assert Root + TagAt(p) <= NewFilename(f).value;
    }
  }

  /** Three fields joined by dots. */
  lemma JoinThree(a: string, b: string, c: string)
    ensures JoinWith(".", [a, b, c]) == a + "." + b + "." + c
  {
    assert [a, b, c][1..] == [b, c] && [b, c][1..] == [c] && [c][1..] == [];
    assert Prefixed(".", [c]) == "." + c;
    assert Prefixed(".", [b, c]) == "." + b + ("." + c);
  }

  /** Four fields joined by dots. */
  lemma JoinFour(a: string, b: string, c: string, d: string)
    ensures JoinWith(".", [a, b, c, d]) == a + "." + b + "." + c + "." + d
  {
    assert [a, b, c, d][1..] == [b, c, d] && [b, c, d][1..] == [c, d];
    assert [c, d][1..] == [d] && [d][1..] == [];
    assert Prefixed(".", [d]) == "." + d;
    assert Prefixed(".", [c, d]) == "." + c + ("." + d);
    assert Prefixed(".", [b, c, d]) == "." + b + ("." + c + ("." + d));
  }

  /**
   * A nidq file maps to the root, the tag, `nidq` and its extension,
   * whatever probe or band markers it also carries.
   */
  lemma NewFilenameNidq(f: string)
    requires LastTag(f, 100).Some? && Contains(f, ".nidq.")
    ensures ExtOf(f).None? ==> NewFilename(f) == Err(UnboundLocal("ext"))
    ensures ExtOf(f).Some? ==>
      NewFilename(f) == Ok(Root + TagAt(LastTag(f, 100).value) + ".nidq." + ExtOf(f).value)
  {
    if ExtOf(f).Some? {
      var head, ext := Root + TagAt(LastTag(f, 100).value), ExtOf(f).value;
      JoinThree(head, "nidq", ext);
      assert NewFilename(f) == Ok(JoinWith(".", [head, "nidq", ext]));
      assert head + "." + "nidq" + "." + ext == head + (".nidq." + ext);
      assert head + (".nidq." + ext) == head + ".nidq." + ext;
    }
  }

  /**
   * Any other tagged file maps to four dot-joined fields: root and tag,
   * probe, band and extension; the first missing of probe, band and
   * extension is reported instead.
   */
  lemma NewFilenameProbe(f: string)
    requires LastTag(f, 100).Some? && !Contains(f, ".nidq.")
    ensures ProbeOf(f).None? ==> NewFilename(f) == Err(UnboundLocal("probe"))
    ensures ProbeOf(f).Some? && BandOf(f).None? ==> NewFilename(f) == Err(UnboundLocal("freq"))
    ensures (ProbeOf(f).Some? && BandOf(f).Some? && ExtOf(f).None?) ==> NewFilename(f) == Err(UnboundLocal("ext"))
    ensures (ProbeOf(f).Some? && BandOf(f).Some? && ExtOf(f).Some?) ==>
      NewFilename(f) == Ok(Root + TagAt(LastTag(f, 100).value) + "." + ProbeOf(f).value + "." +
                           BandOf(f).value + "." + ExtOf(f).value)
  {
    if ProbeOf(f).Some? && BandOf(f).Some? && ExtOf(f).Some? {
      JoinFour(Root + TagAt(LastTag(f, 100).value), ProbeOf(f).value, BandOf(f).value, ExtOf(f).value);
    }
  }

  // The produced name, as seen by a second pass of the search.

  /** The names of the fields a produced name can contain. */
  predicate Field(w: string)
  {
    w in ["nidq", "imec0", "imec1", "imec", "ap", "lf", "bin", "meta"]
  }

  lemma FieldChars(w: string)
    requires Field(w)
    ensures '.' !in w && '_' !in w
  {
  }

  /** Among the fields, only an extension itself starts with that extension. */
  lemma ExtensionPrefix(w: string, x: string)
    requires Field(x) && (w == "bin" || w == "meta")
    ensures w <= x <==> x == w
  {
    assert w <= x ==> w[0] == x[0] && (|x| == |w| ==> x == x[..|w|]);
  }

  /** Root and tag contain no dot. */
  lemma HeadHasNoDot(p: nat)
    requires p < 100
    ensures '.' !in Root + TagAt(p)
  {
    assert Root + TagAt(p) == "_spikeglx_ephysData_g" + [Digit(p / 10)] + "_t" + [Digit(p % 10)];
  }

  /** An underscore-led word that does not continue with `g` holds no tag start. */
  lemma SkipWord(w: string, x: string, pat: string)
    requires |w| > 0 && w[0] != 'g' && '_' !in w
    requires |pat| >= 2 && pat[0] == '_' && pat[1] == 'g'
    ensures Contains("_" + w + x, pat) <==> Contains(x, pat)
  {
    var s := "_" + w + x;
    assert s == ['_'] + (w + x);
    SkipOne('_', w + x, pat);
    SkipBlock(w, x, pat);
  }

  /** A tag cannot start inside the root, so the search skips over it. */
  lemma RootSkip(y: string, pat: string)
    requires |pat| == 6 && pat[0] == '_' && pat[1] == 'g'
    ensures Contains(Root + y, pat) <==> Contains(y, pat)
  {
    var x1 := "_" + "ephysData" + y;
    assert Root + y == "_" + "spikeglx" + x1;
    SkipWord("spikeglx", x1, pat);
    SkipWord("ephysData", y, pat);
  }

  /** After a tag, an underscore-free tail holds no other tag. */
  lemma TagOnly(p: nat, q: nat, rest: string)
    requires p < 100 && q < 100 && '_' !in rest
    ensures Contains(TagAt(p) + rest, TagAt(q)) <==> p == q
  {
    var pat := TagAt(q);
    var y := TagAt(p) + rest;
    if p == q {
      ContainsPrefix(pat, rest);
    } else {
      var d1, d2 := Digit(p / 10), Digit(p % 10);
      TagAtInjective(p, q);
      assert !(pat <= y) by {
        assert y[..6] == TagAt(p);
      }
      var z := "_t" + [d2] + rest;
      assert y == ['_'] + (("g" + [d1]) + z);
      SkipOne('_', ("g" + [d1]) + z, pat);
      SkipBlock("g" + [d1], z, pat);
      SkipSecond(z, pat);
      assert z[1..] == ("t" + [d2] + rest) + [];
      SkipBlock("t" + [d2] + rest, [], pat);
      NotInEmpty(pat);
    }
  }

  /** In a produced name, the only tag is the one its head carries. */
  lemma OutputTag(p: nat, q: nat, rest: string)
    requires p < 100 && q < 100 && '_' !in rest
    ensures Contains(Root + TagAt(p) + rest, TagAt(q)) <==> p == q
  {
    var y := TagAt(p) + rest;
    assert Root + TagAt(p) + rest == Root + y;
    RootSkip(y, TagAt(q));
    TagOnly(p, q, rest);
  }

  /** The dot patterns of a produced name are decided by its fields alone. */
  lemma OutputPatterns(p: nat, fs: seq<string>, w: string)
    requires p < 100 && '.' !in w && forall k :: 0 <= k < |fs| ==> Field(fs[k])
    ensures JoinWith(".", [Root + TagAt(p)] + fs) == Root + TagAt(p) + Prefixed(".", fs)
    ensures Contains(JoinWith(".", [Root + TagAt(p)] + fs), "." + w) <==>
      exists k :: 0 <= k < |fs| && w <= fs[k]
    ensures Contains(JoinWith(".", [Root + TagAt(p)] + fs), "." + w + ".") <==>
      exists k :: 0 <= k < |fs| - 1 && fs[k] == w
  {
    assert ([Root + TagAt(p)] + fs)[1..] == fs;
    forall k | 0 <= k < |fs| ensures '.' !in fs[k] {
      FieldChars(fs[k]);
    }
    HeadHasNoDot(p);
    var tail := Prefixed(".", fs);
    SkipBlock(Root + TagAt(p), tail, "." + w);
    assert "." + w + "." == "." + (w + ".");
    SkipBlock(Root + TagAt(p), tail, "." + w + ".");
    LeadingDotPattern(fs, w);
    FieldPattern(fs, w);
  }

  /** A produced name holds no tag but its own. */
  lemma OutputLastTag(p: nat, fs: seq<string>)
    requires p < 100 && forall k :: 0 <= k < |fs| ==> Field(fs[k])
    ensures LastTag(JoinWith(".", [Root + TagAt(p)] + fs), 100) == Some(p)
  {
    var head := Root + TagAt(p);
    var o := JoinWith(".", [head] + fs);
    assert ([head] + fs)[1..] == fs;
    assert o == head + Prefixed(".", fs);
    forall k | 0 <= k < |fs| ensures '_' !in fs[k] {
      FieldChars(fs[k]);
    }
    var rest := Prefixed(".", fs);
    assert '_' !in rest;
    OutputTag(p, p, rest);
    var r := LastTag(o, 100);
    if r.Some? {
      OutputTag(p, r.value, rest);
    }
  }

  /** The name produced from tag step `p` and fields `fs`. */
  function Produced(p: nat, fs: seq<string>): (r: string)
    requires p < 100
  {
    JoinWith(".", [Root + TagAt(p)] + fs)
  }

  /** An extension pattern is in a produced name iff that extension is one of its fields. */
  lemma ExtensionOccurs(p: nat, fs: seq<string>, w: string, dotted: string)
    requires p < 100 && forall k :: 0 <= k < |fs| ==> Field(fs[k])
    requires (w == "bin" || w == "meta") && dotted == "." + w
    ensures Contains(Produced(p, fs), dotted) <==> exists k :: 0 <= k < |fs| && fs[k] == w
  {
    OutputPatterns(p, fs, w);
    forall k | 0 <= k < |fs| ensures w <= fs[k] <==> fs[k] == w {
      ExtensionPrefix(w, fs[k]);
    }
  }

  /** The extension of a produced name is its one extension field. */
  lemma ProducedExt(p: nat, fs: seq<string>)
    requires p < 100 && |fs| > 0 && forall k :: 0 <= k < |fs| ==> Field(fs[k])
    requires fs[|fs| - 1] == "bin" || fs[|fs| - 1] == "meta"
    requires forall k :: 0 <= k < |fs| - 1 ==> fs[k] != "bin" && fs[k] != "meta"
    ensures ExtOf(Produced(p, fs)) == Some(fs[|fs| - 1])
  {
    var o := Produced(p, fs);
    var n := |fs|;
    ExtensionOccurs(p, fs, "bin", ".bin");
    ExtensionOccurs(p, fs, "meta", ".meta");
    if fs[n - 1] == "bin" {
      assert Contains(o, ".bin");
    } else {
      assert forall k :: 0 <= k < n ==> fs[k] != "bin";
      assert !Contains(o, ".bin");
      assert Contains(o, ".meta");
    }
  }

  /** The dotted markers the rename looks for, spelled out. */
  lemma MarkerLiterals()
    ensures ".nidq." == "." + "nidq" + "." && '.' !in "nidq"
    ensures ".imec0." == "." + "imec0" + "." && '.' !in "imec0"
    ensures ".imec1." == "." + "imec1" + "." && '.' !in "imec1"
    ensures ".imec." == "." + "imec" + "." && '.' !in "imec"
    ensures ".ap." == "." + "ap" + "." && '.' !in "ap"
    ensures ".lf." == "." + "lf" + "." && '.' !in "lf"
  {
  }

  /** A `.w.` marker is in a produced name iff `w` is one of its inner fields. */
  lemma ProducedMarker(p: nat, fs: seq<string>, w: string, marker: string)
    requires p < 100 && forall k :: 0 <= k < |fs| ==> Field(fs[k])
    requires '.' !in w && marker == "." + w + "."
    ensures Contains(Produced(p, fs), marker) <==> exists k :: 0 <= k < |fs| - 1 && fs[k] == w
  {
    OutputPatterns(p, fs, w);
  }

  /** A produced nidq name is its own new name. */
  lemma IdempotentNidq(p: nat, e: string)
    requires p < 100 && (e == "bin" || e == "meta")
    ensures NewFilename(Produced(p, ["nidq", e])) == Ok(Produced(p, ["nidq", e]))
  {
    var fs := ["nidq", e];
    assert [Root + TagAt(p)] + fs == [Root + TagAt(p), "nidq", e];
    OutputLastTag(p, fs);
    ProducedExt(p, fs);
    ProducedMarker(p, fs, "nidq", ".nidq.");
  }

  /** The fields of a produced probe name: none but the last is an extension or `nidq`. */
  lemma ProbeFields(probe: string, band: string, e: string)
    requires e == "bin" || e == "meta"
    requires probe == "imec0" || probe == "imec1" || probe == "imec"
    requires band == "ap" || band == "lf"
    ensures var fs := [probe, band, e];
      && (forall k :: 0 <= k < |fs| ==> Field(fs[k]))
      && (forall k :: 0 <= k < |fs| - 1 ==> fs[k] != "bin" && fs[k] != "meta" && fs[k] != "nidq")
  {
  }

  /** The probe of a produced probe name is its probe field. */
  lemma ProducedProbe(p: nat, probe: string, band: string, e: string)
    requires p < 100 && (e == "bin" || e == "meta")
    requires probe == "imec0" || probe == "imec1" || probe == "imec"
    requires band == "ap" || band == "lf"
    ensures ProbeOf(Produced(p, [probe, band, e])) == Some(probe)
  {
    var fs := [probe, band, e];
    ProbeFields(probe, band, e);
    MarkerLiterals();
    ProducedMarker(p, fs, "imec0", ".imec0.");
    ProducedMarker(p, fs, "imec1", ".imec1.");
    ProducedMarker(p, fs, "imec", ".imec.");
  }

  /** The band of a produced probe name is its band field. */
  lemma ProducedBand(p: nat, probe: string, band: string, e: string)
    requires p < 100 && (e == "bin" || e == "meta")
    requires probe == "imec0" || probe == "imec1" || probe == "imec"
    requires band == "ap" || band == "lf"
    ensures BandOf(Produced(p, [probe, band, e])) == Some(band)
  {
    var fs := [probe, band, e];
    ProbeFields(probe, band, e);
    MarkerLiterals();
    ProducedMarker(p, fs, "ap", ".ap.");
    ProducedMarker(p, fs, "lf", ".lf.");
  }

  /** A produced probe name is its own new name. */
  lemma IdempotentProbe(p: nat, probe: string, band: string, e: string)
    requires p < 100 && (e == "bin" || e == "meta")
    requires probe == "imec0" || probe == "imec1" || probe == "imec"
    requires band == "ap" || band == "lf"
    ensures NewFilename(Produced(p, [probe, band, e])) == Ok(Produced(p, [probe, band, e]))
  {
    var fs := [probe, band, e];
    var o := Produced(p, fs);
    assert [Root + TagAt(p)] + fs == [Root + TagAt(p), probe, band, e];
    ProbeFields(probe, band, e);
    MarkerLiterals();
    ProducedMarker(p, fs, "nidq", ".nidq.");
    OutputLastTag(p, fs);
    ProducedExt(p, fs);
    ProducedProbe(p, probe, band, e);
    ProducedBand(p, probe, band, e);
    NewFilenameProbe(o);
    JoinFour(Root + TagAt(p), probe, band, e);
  }

  /** Renaming a name that was already produced leaves it unchanged. */
  lemma NewFilenameIdempotent(f: string)
    requires NewFilename(f).Ok?
    ensures NewFilename(NewFilename(f).value) == NewFilename(f)
  {
    var p := LastTag(f, 100).value;
    if Contains(f, ".nidq.") {
      assert [Root + TagAt(p)] + ["nidq", ExtOf(f).value] == [Root + TagAt(p), "nidq", ExtOf(f).value];
      IdempotentNidq(p, ExtOf(f).value);
    } else {
      var fs := [ProbeOf(f).value, BandOf(f).value, ExtOf(f).value];
      assert [Root + TagAt(p)] + fs == [Root + TagAt(p), fs[0], fs[1], fs[2]];
      IdempotentProbe(p, fs[0], fs[1], fs[2]);
    }
  }

  // ----------------------------------------------------- cli_ask_options

  /** What stops the option prompt: a bad default index, no default, no input. */
  datatype AskError = IndexError | TypeError | EndOfInput

  /** Python indexing of a list of length `n`: negative indices count from the end. */
  function NormIndex(n: nat, idx: int): (r: Option<nat>)
    ensures r.Some? <==> -(n as int) <= idx < n
    ensures r.Some? ==> r.value < n && (r.value == idx || r.value == idx + n)
  {
    if 0 <= idx < n then Some(idx)
    else if -(n as int) <= idx < 0 then Some(idx + n)
    else None
  }

  /** A default index the option list cannot be indexed with. */
  predicate BadDefault(options: seq<string>, defaultIdx: Option<int>)
  {
    defaultIdx.Some? && NormIndex(|options|, defaultIdx.value).None?
  }

  /** The options with entry `k`, the default, wrapped in brackets. */
  function Marked(options: seq<string>, k: nat): (r: seq<string>)
    requires k < |options|
    ensures |r| == |options| && r[k] == "[" + options[k] + "]"
    ensures forall i :: 0 <= i < |options| && i != k ==> r[i] == options[i]
  {
    options[k := "[" + options[k] + "]"]
  }

  /**
   * The prompt shown: the caller's text, then the entries, the default one
   * in brackets, joined by ` | ` inside ` (` and `)> `. An index out of
   * range raises IndexError before anything is shown.
   */
  function PromptText(prompt: string, options: seq<string>, defaultIdx: Option<int>): (r: Result<string, AskError>)
    ensures r.Err? <==> BadDefault(options, defaultIdx)
    ensures r.Err? ==> r.error == IndexError
    ensures defaultIdx.None? ==> r == Ok(prompt + " (" + JoinWith(" | ", options) + ")> ")
    ensures r.Ok? && defaultIdx.Some? ==>
      r == Ok(prompt + " (" + JoinWith(" | ", Marked(options, NormIndex(|options|, defaultIdx.value).value)) + ")> ")
  {
    if defaultIdx.None? then Ok(prompt + " (" + JoinWith(" | ", options) + ")> ")
    else match NormIndex(|options|, defaultIdx.value)
      case None => Err(IndexError)
      case Some(k) => Ok(prompt + " (" + JoinWith(" | ", Marked(options, k)) + ")> ")
  }

  /** Builds the prompt, bracketing the default entry in place. */
  method BuildPrompt(prompt: string, options: seq<string>, defaultIdx: Option<int>) returns (r: Result<string, AskError>)
    ensures r == PromptText(prompt, options, defaultIdx)
  {
    var parsed := new string[|options|](i requires 0 <= i < |options| => options[i]);
    assert parsed[..] == options;
    if defaultIdx.Some? {
      var k := NormIndex(|options|, defaultIdx.value);
      if k.None? {
        return Err(IndexError);
      }
      parsed[k.value] := "[" + parsed[k.value] + "]";
      assert parsed[..] == Marked(options, k.value);
    }
    return Ok(prompt + " (" + JoinWith(" | ", parsed[..]) + ")> ");
  }

  /** The outcome of the prompt and how many times it was shown. */
  datatype Asked = Asked(outcome: Result<string, AskError>, shown: nat)

  /** The answer a line stands for: the default entry when it is empty. */
  function Resolve(options: seq<string>, defaultIdx: Option<int>, line: string): (a: Option<string>)
    requires !BadDefault(options, defaultIdx)
    ensures line != "" ==> a == Some(line)
    ensures line == "" && defaultIdx.None? ==> a == None
    ensures line == "" && defaultIdx.Some? ==> a.Some? && a.value in options
  {
    if line != "" then Some(line)
    else if defaultIdx.None? then None
    else Some(options[NormIndex(|options|, defaultIdx.value).value])
  }

  /**
   * cli_ask_options on the lines `answers`: each prompt reads one line; an
   * empty line stands for the default; an answer that is no option asks
   * again; running out of lines ends the dialogue.
   */
  function Ask(prompt: string, options: seq<string>, defaultIdx: Option<int>, answers: seq<string>): (r: Asked)
    ensures r.outcome.Ok? ==> r.outcome.value in options
    ensures BadDefault(options, defaultIdx) <==> r == Asked(Err(IndexError), 0)
    ensures !BadDefault(options, defaultIdx) ==> 1 <= r.shown <= |answers| + 1
    decreases |answers|
  {
    if BadDefault(options, defaultIdx) then Asked(Err(IndexError), 0)
    else if answers == [] then Asked(Err(EndOfInput), 1)
    else match Resolve(options, defaultIdx, answers[0])
      case None => Asked(Err(TypeError), 1)
      case Some(ans) =>
        if ans in options then Asked(Ok(ans), 1)
        else
          var again := Ask(prompt, options, defaultIdx, answers[1..]);
          Asked(again.outcome, again.shown + 1)
  }

  /**
   * cli_ask_options: show the prompt, read a line, fall back to the default
   * on an empty line, and ask again while the answer is no option. Returns
   * the outcome and the prompts shown, one per line read.
   */
  method AskOptions(prompt: string, options: seq<string>, defaultIdx: Option<int>, answers: seq<string>)
    returns (r: Result<string, AskError>, shown: seq<string>)
    ensures r == Ask(prompt, options, defaultIdx, answers).outcome
    ensures |shown| == Ask(prompt, options, defaultIdx, answers).shown
    ensures forall i :: 0 <= i < |shown| ==> Ok(shown[i]) == PromptText(prompt, options, defaultIdx)
    decreases |answers|
  {
    var text := BuildPrompt(prompt, options, defaultIdx);
    if text.Err? {
      return Err(text.error), [];
    }
    if answers == [] {
      return Err(EndOfInput), [text.value];
    }
    var ans := answers[0];
    if ans == "" {
      if defaultIdx.None? {
        return Err(TypeError), [text.value];
      }
      ans := options[NormIndex(|options|, defaultIdx.value).value];
    }
    if ans !in options {
      var again;
      r, again := AskOptions(prompt, options, defaultIdx, answers[1..]);
      return r, [text.value] + again;
    }
    return Ok(ans), [text.value];
  }

  /**
   * The dialogue ends on the first line that is an option, or empty with a
   * default; every earlier line was a non-empty non-option. Its answer is
   * that line, or the default entry for an empty line.
   */
  lemma {:induction false} AskFirstAcceptable(prompt: string, options: seq<string>, defaultIdx: Option<int>, answers: seq<string>)
    requires !BadDefault(options, defaultIdx)
    requires Ask(prompt, options, defaultIdx, answers).outcome.Ok?
    ensures var r := Ask(prompt, options, defaultIdx, answers);
      var i := r.shown - 1;
      && i < |answers|
      && Resolve(options, defaultIdx, answers[i]) == Some(r.outcome.value)
      && forall j :: 0 <= j < i ==> answers[j] != "" && answers[j] !in options
    decreases |answers|
  {
    var r := Ask(prompt, options, defaultIdx, answers);
    var ans := Resolve(options, defaultIdx, answers[0]).value;
    if ans !in options {
      AskFirstAcceptable(prompt, options, defaultIdx, answers[1..]);
      var i := r.shown - 1;
      assert answers[i] == answers[1..][i - 1];
      forall j | 0 <= j < i ensures answers[j] != "" && answers[j] !in options {
        if j > 0 {
          assert answers[j] == answers[1..][j - 1];
        }
      }
    }
  }

  /**
   * Input runs out exactly when the default index is valid and every line
   * is a non-empty non-option; the prompt is then shown once per line and
   * once more.
   */
  lemma {:induction false} AskEndOfInput(prompt: string, options: seq<string>, defaultIdx: Option<int>, answers: seq<string>)
    requires !BadDefault(options, defaultIdx)
    ensures Ask(prompt, options, defaultIdx, answers).outcome == Err(EndOfInput) <==>
      forall j :: 0 <= j < |answers| ==> answers[j] != "" && answers[j] !in options
    ensures Ask(prompt, options, defaultIdx, answers).outcome == Err(EndOfInput) ==>
      Ask(prompt, options, defaultIdx, answers).shown == |answers| + 1
    decreases |answers|
  {
    if answers != [] {
      AskEndOfInput(prompt, options, defaultIdx, answers[1..]);
      assert forall j :: 1 <= j < |answers| ==> answers[j] == answers[1..][j - 1];
    }
  }

  /** An empty first line takes the default entry when there is one. */
  lemma AskDefault(prompt: string, options: seq<string>, k: int, answers: seq<string>)
    requires NormIndex(|options|, k).Some? && |answers| > 0 && answers[0] == ""
    ensures Ask(prompt, options, Some(k), answers) == Asked(Ok(options[NormIndex(|options|, k).value]), 1)
  {
  }

  /** Without a default, an empty line raises TypeError unless an option came first. */
  lemma AskNoDefault(prompt: string, options: seq<string>, answers: seq<string>, i: nat)
    requires i < |answers| && answers[i] == ""
    requires forall j :: 0 <= j < i ==> answers[j] != "" && answers[j] !in options
    ensures Ask(prompt, options, None, answers) == Asked(Err(TypeError), i + 1)
    decreases i
  {
    if i > 0 {
      assert forall j :: 0 <= j < i - 1 ==> answers[1..][j] == answers[j + 1];
      AskNoDefault(prompt, options, answers[1..], i - 1);
    }
  }

  // ------------------------------------------------------ check_transfer

  /** A file of a session listing: its name and its size in bytes. */
  datatype FileEntry = FileEntry(name: string, size: nat)

  /**
   * check_transfer on the two sorted listings: equal length, then name and
   * size compared pair by pair; the first difference fails the check.
   */
  method CheckTransfer(src: seq<FileEntry>, dst: seq<FileEntry>) returns (ok: bool)
    ensures ok <==> (|src| == |dst| &&
                     forall i :: 0 <= i < |src| ==> src[i].name == dst[i].name && src[i].size == dst[i].size)
  {
    if |src| != |dst| {
      return false;
    }
    for i := 0 to |src|
      invariant forall j :: 0 <= j < i ==> src[j].name == dst[j].name && src[j].size == dst[j].size
    {
      if src[i].name != dst[i].name {
        return false;
      }
      if src[i].size != dst[i].size {
        return false;
      }
    }
    return true;
  }

  /** Agreeing pairwise on name and size is having the same listing. */
  lemma TransferCheckIsEquality(src: seq<FileEntry>, dst: seq<FileEntry>)
    ensures (|src| == |dst| && forall i :: 0 <= i < |src| ==> src[i].name == dst[i].name && src[i].size == dst[i].size)
      <==> src == dst
  {
    if |src| == |dst| && forall i :: 0 <= i < |src| ==> src[i].name == dst[i].name && src[i].size == dst[i].size {
      assert forall i :: 0 <= i < |src| ==> src[i] == dst[i];
    }
  }

  // ------------------------------------------- rename_session and remote

  /** An empty answer keeps the current value. */
  function OrCurrent(answer: string, current: string): (v: string)
  {
    if answer == "" then current else answer
  }

  datatype RenameError = TooFewParts | MissingAnswer

  /**
   * The renamed session path: every part but the last three, then the new
   * mouse, date and number read from three lines, each empty line keeping
   * the current part. A path of fewer than three parts raises IndexError
   * before any line is read.
   */
  function RenamedPath(parts: seq<string>, answers: seq<string>): (r: Result<seq<string>, RenameError>)
    ensures r == Err(TooFewParts) <==> |parts| < 3
    ensures r == Err(MissingAnswer) <==> |parts| >= 3 && |answers| < 3
    ensures r.Ok? ==> var n := |parts|;
      && |r.value| == n
      && r.value[..n - 3] == parts[..n - 3]
      && forall i :: 0 <= i < 3 ==> r.value[n - 3 + i] == OrCurrent(answers[i], parts[n - 3 + i])
  {
    var n := |parts|;
    if n < 3 then Err(TooFewParts)
    else if |answers| < 3 then Err(MissingAnswer)
    else Ok(parts[..n - 3] + [OrCurrent(answers[0], parts[n - 3]),
                              OrCurrent(answers[1], parts[n - 2]),
                              OrCurrent(answers[2], parts[n - 1])])
  }

  /** Keeping all three current values renames the session to itself. */
  lemma RenameKeepsPath(parts: seq<string>, answers: seq<string>)
    requires |parts| >= 3 && |answers| >= 3 && answers[0] == answers[1] == answers[2] == ""
    ensures RenamedPath(parts, answers) == Ok(parts)
  {
    var n := |parts|;
    assert parts == parts[..n - 3] + [parts[n - 3], parts[n - 2], parts[n - 1]];
  }

  /** A pathlib anchor among a path's parts: the root of a POSIX absolute path. */
  predicate IsAnchor(part: string)
  {
    |part| > 0 && part[0] == '/'
  }

  /**
   * `remote_folder / Path(*parts[-3:])`: the remote root, then the last three
   * parts (all of them when there are fewer). Joining onto an absolute path
   * discards the left operand, so when the kept parts start with the
   * session's anchor the result is those parts alone.
   */
  function RemoteSessionPath(remote: seq<string>, parts: seq<string>): (r: seq<string>)
    ensures var n := if |parts| >= 3 then 3 else |parts|;
      && |r| >= n && r[|r| - n..] == parts[|parts| - n..]
      && (n > 0 && IsAnchor(parts[|parts| - n]) ==> r == parts[|parts| - n..])
      && (!(n > 0 && IsAnchor(parts[|parts| - n])) ==> |r| == |remote| + n && r[..|remote|] == remote)
  {
    var kept := parts[(if |parts| >= 3 then |parts| - 3 else 0)..];
    if |kept| > 0 && IsAnchor(kept[0]) then kept else remote + kept
  }

  /**
   * A session renamed and then transferred lands under the remote root as
   * the new mouse, date and number (or at those parts alone when the new
   * mouse part is itself an anchor).
   */
  lemma RemoteOfRenamed(remote: seq<string>, parts: seq<string>, answers: seq<string>)
    requires RenamedPath(parts, answers).Ok?
    ensures var m := OrCurrent(answers[0], parts[|parts| - 3]);
      RemoteSessionPath(remote, RenamedPath(parts, answers).value) ==
      (if IsAnchor(m) then [] else remote) +
        [m, OrCurrent(answers[1], parts[|parts| - 2]), OrCurrent(answers[2], parts[|parts| - 1])]
  {
    var r := RenamedPath(parts, answers).value;
    var n := |parts|;
    assert r[n - 3..] == [r[n - 3], r[n - 2], r[n - 1]];
  }
}
