/**
 * The decisions of `Upload` (uploading.go): the platform-specific command
 * override, the choice of serial port around the 1200-baud touch, and the
 * derived keys written into the merged property map before the upload
 * pattern is resolved.
 *
 * Property maps are `map<string, string>`; a missing key reads as `""`, as a
 * Go map does. The board/tool lookups (`ToSubtree`, `Merge`, `Lookup`,
 * `ToBool`) belong to the property-map component, which is not part of this
 * model: their results are parameters.
 */
module Uploading {
  import opened Wrappers
  import opened GoStrings
  import opened GoPath
  import opened PortDiscovery

  /**
   * The fields of `UploadOptions` that are not property maps (the two maps are given by what is
   * looked up in them). `board` mirrors the Go struct; no decision modelled here reads it.
   */
  datatype UploadOptions = UploadOptions(board: string, binary: string, port: string, tools: string, skipTouch: bool)

  /** The `"No port"` error. */
  datatype UploadError = NoPort

  /**
   * What `Upload` hands on to pattern resolution and execution: the port
   * chosen, whether the 1200-baud touch was performed on the supplied port,
   * the final property map, and the platform key of the upload pattern.
   */
  datatype UploadPlan = UploadPlan(port: string, touched: bool, properties: map<string, string>, patternKey: string)

  /** Reading a Go `map[string]string`: absent keys read as `""`. */
  function Get(m: map<string, string>, k: string): string
  {
    if k in m then m[k] else ""
  }

  const CmdKey := "cmd"
  const VerboseKey := "upload.verbose"
  const VerboseParamKey := "upload.params.verbose"
  const VerifyKey := "upload.verify"
  const VerifyParamKey := "upload.params.verify"
  const ToolsPathKey := "runtime.tools.bossac-1.6.1-arduino.path"
  const SerialPortFileKey := "serial.port.file"
  const BuildPathKey := "build.path"
  const ProjectNameKey := "build.project_name"

  /** The keys `Upload` reads and writes are all different. */
  lemma KeysDistinct()
    ensures VerboseKey != VerifyKey && VerboseKey != ToolsPathKey && VerboseKey != SerialPortFileKey
    ensures VerboseKey != BuildPathKey && VerboseKey != ProjectNameKey && VerifyKey != ToolsPathKey
    ensures VerifyKey != SerialPortFileKey && VerifyKey != BuildPathKey && VerifyKey != ProjectNameKey
    ensures ToolsPathKey != SerialPortFileKey && ToolsPathKey != BuildPathKey && ToolsPathKey != ProjectNameKey
    ensures SerialPortFileKey != BuildPathKey && SerialPortFileKey != ProjectNameKey && BuildPathKey != ProjectNameKey
    ensures VerboseParamKey !in DerivedKeys && VerifyParamKey !in DerivedKeys && CmdKey !in DerivedKeys
    ensures VerboseParamKey != CmdKey && VerifyParamKey != CmdKey
  {
  }

  /** The keys `Upload` writes after choosing the port. */
  const DerivedKeys: set<string> := {VerboseKey, VerifyKey, ToolsPathKey, SerialPortFileKey, BuildPathKey, ProjectNameKey}

  /** The key of the command for the operating system `goos` (the raw `runtime.GOOS`). */
  function CommandKey(goos: string): string
  {
    "cmd." + goos
  }

  /** The platform key whose value is the upload command-line pattern of `tool`. */
  function PatternKey(tool: string): string
  {
    "tools." + tool + ".upload.pattern"
  }

  /** `build.project_name`: the binary's base name with every occurrence of its extension deleted. */
  function ProjectName(binary: string): (name: string)
    ensures |name| <= |Base(binary)|
  {
    RemoveAll(Base(binary), Ext(binary))
  }

  /** `cmd` holds the platform-specific command when that is non-empty, and is untouched otherwise. */
  ghost predicate CommandSelected(merged: map<string, string>, props: map<string, string>, goos: string)
  {
    var specific := Get(merged, CommandKey(goos));
    if specific != "" then CmdKey in props && props[CmdKey] == specific
    else (CmdKey in props <==> CmdKey in merged) && (CmdKey in merged ==> props[CmdKey] == merged[CmdKey])
  }

  /** No key other than `cmd` and the derived keys is added or changed. */
  ghost predicate OthersUnchanged(merged: map<string, string>, props: map<string, string>, goos: string)
  {
    && (forall k :: k in props <==> k in merged || k in DerivedKeys || (k == CmdKey && Get(merged, CommandKey(goos)) != ""))
    && forall k :: k in merged && k !in DerivedKeys && k != CmdKey ==> props[k] == merged[k]
  }

  /** The supplied port is touched exactly when the board asks for it and the caller did not skip it. */
  predicate TouchRequested(options: UploadOptions, use1200bpsTouch: bool)
    ensures TouchRequested(options, use1200bpsTouch) ==> options.port != "" && use1200bpsTouch
    ensures options.skipTouch ==> !TouchRequested(options, use1200bpsTouch)
  {
    options.port != "" && !options.skipTouch && use1200bpsTouch
  }

  /** Lines 98-105: `cmd` takes the value of `cmd.<goos>` when that is non-empty. */
  method SelectCommand(merged: map<string, string>, goos: string) returns (u: map<string, string>)
    ensures CommandSelected(merged, u, goos)
    ensures forall k :: k in u <==> k in merged || (k == CmdKey && Get(merged, CommandKey(goos)) != "")
    ensures forall k :: k in merged && k != CmdKey ==> u[k] == merged[k]
  {
    u := merged;
    var commandKey := CommandKey(goos);
    var platformSpecificCommand := Get(u, commandKey);
    if platformSpecificCommand != "" {
      u := u[CmdKey := platformSpecificCommand];
    }
  }

  /**
   * Lines 107-139: the port to upload through. With no supplied port,
   * discovery must find one. With a supplied port and a touch requested,
   * the touch is made and discovery looks for the port the board
   * re-enumerates as, falling back to the supplied port.
   */
  method ChoosePort(options: UploadOptions, use1200bpsTouch: bool, baseline: PortSnapshot, polls: seq<PortSnapshot>)
    returns (r: Result<string, UploadError>, touched: bool, ghost discovered: string)
    requires |polls| > 0
    ensures options.port == "" || TouchRequested(options, use1200bpsTouch) ==> Discovers(baseline, polls, discovered)
    ensures touched == TouchRequested(options, use1200bpsTouch)
    ensures r.Failure? <==> options.port == "" && discovered == ""
    ensures r.Success? ==> r.value != ""
    ensures r.Success? ==> r.value == (if options.port == "" || (touched && discovered != "") then discovered else options.port)
  {
    var port := options.port;
    touched := false;
    discovered := "";
    if port == "" {
      port := DiscoverPort(baseline, polls);
      discovered := port;
      if port == "" {
        return Failure(NoPort), touched, discovered;
      }
    } else if !options.skipTouch && use1200bpsTouch {
      // Open at 1200 baud, DTR low, RTS high, close: the board resets into its bootloader.
      touched := true;
      port := DiscoverPort(baseline, polls);
      discovered := port;
      if port == "" {
        // The source's second "No port" return cannot be taken: the supplied port is non-empty here.
        assert options.port != "";
        port := options.port;
      }
    }
    r := Success(port);
  }

  /** Lines 143-145: the keys copied from the parameters and the tools directory. */
  method InjectParamKeys(u: map<string, string>, options: UploadOptions) returns (props: map<string, string>)
    ensures VerboseKey in props && props[VerboseKey] == Get(u, VerboseParamKey)
    ensures VerifyKey in props && props[VerifyKey] == Get(u, VerifyParamKey)
    ensures ToolsPathKey in props && props[ToolsPathKey] == options.tools
    ensures forall k :: k in props <==> k in u || k == VerboseKey || k == VerifyKey || k == ToolsPathKey
    ensures forall k :: k in u && k != VerboseKey && k != VerifyKey && k != ToolsPathKey ==> props[k] == u[k]
  {
    KeysDistinct();
    props := u;
    props := props[VerboseKey := Get(props, VerboseParamKey)];
    props := props[VerifyKey := Get(props, VerifyParamKey)];
    props := props[ToolsPathKey := options.tools];
  }

  /** Lines 146-148: the keys computed from the chosen port and the binary's path, given their values. */
  method InjectPathKeys(u: map<string, string>, portFile: string, buildPath: string, projectName: string)
    returns (props: map<string, string>)
    ensures SerialPortFileKey in props && props[SerialPortFileKey] == portFile
    ensures BuildPathKey in props && props[BuildPathKey] == buildPath
    ensures ProjectNameKey in props && props[ProjectNameKey] == projectName
    ensures forall k :: k in props <==> k in u || k == SerialPortFileKey || k == BuildPathKey || k == ProjectNameKey
    ensures forall k :: k in u && k != SerialPortFileKey && k != BuildPathKey && k != ProjectNameKey ==> props[k] == u[k]
  {
    KeysDistinct();
    props := u;
    props := props[SerialPortFileKey := portFile];
    props := props[BuildPathKey := buildPath];
    props := props[ProjectNameKey := projectName];
  }

  /** Lines 143-148: the keys derived from the options and the chosen port. */
  method InjectDerivedKeys(u: map<string, string>, options: UploadOptions, port: string) returns (props: map<string, string>)
    ensures VerboseKey in props && props[VerboseKey] == Get(u, VerboseParamKey)
    ensures VerifyKey in props && props[VerifyKey] == Get(u, VerifyParamKey)
    ensures ToolsPathKey in props && props[ToolsPathKey] == options.tools
    ensures SerialPortFileKey in props && props[SerialPortFileKey] == Base(port)
    ensures BuildPathKey in props && props[BuildPathKey] == Dir(options.binary)
    ensures ProjectNameKey in props && props[ProjectNameKey] == ProjectName(options.binary)
    ensures forall k :: k in props <==> k in u || k in DerivedKeys
    ensures forall k :: k in u && k !in DerivedKeys ==> props[k] == u[k]
  {
    KeysDistinct();
    assert forall k :: k in DerivedKeys <==> (k == VerboseKey || k == VerifyKey || k == ToolsPathKey ||
                                              k == SerialPortFileKey || k == BuildPathKey || k == ProjectNameKey);
    var params := InjectParamKeys(u, options);
    props := InjectPathKeys(params, Base(port), Dir(options.binary), ProjectName(options.binary));
  }

  /**
   * `Upload` up to the resolution of the upload pattern. `merged` is
   * `board.Merge(tools.ToSubtree(tool))`, `tool` the board's `upload.tool`,
   * `use1200bpsTouch` the board's `upload.use_1200bps_touch`, `goos` the
   * operating system name. At most one discovery runs per call (with no
   * supplied port, or after the touch); `baseline` and `polls` are the
   * enumerations it observes and `discovered` is what it returned.
   */
  method Upload(options: UploadOptions, merged: map<string, string>, tool: string, use1200bpsTouch: bool,
                goos: string, baseline: PortSnapshot, polls: seq<PortSnapshot>)
    returns (r: Result<UploadPlan, UploadError>, ghost discovered: string)
    requires |polls| > 0
    ensures options.port == "" || TouchRequested(options, use1200bpsTouch) ==> Discovers(baseline, polls, discovered)
    ensures r.Failure? <==> options.port == "" && discovered == ""
    ensures r.Success? ==> r.value.touched == TouchRequested(options, use1200bpsTouch)
    ensures r.Success? ==> r.value.port == (if options.port == "" || (r.value.touched && discovered != "") then discovered else options.port)
    ensures r.Success? ==> r.value.port != ""
    ensures r.Success? ==> CommandSelected(merged, r.value.properties, goos)
    ensures r.Success? ==> VerboseKey in r.value.properties && r.value.properties[VerboseKey] == Get(merged, VerboseParamKey)
    ensures r.Success? ==> VerifyKey in r.value.properties && r.value.properties[VerifyKey] == Get(merged, VerifyParamKey)
    ensures r.Success? ==> ToolsPathKey in r.value.properties && r.value.properties[ToolsPathKey] == options.tools
    ensures r.Success? ==> SerialPortFileKey in r.value.properties && r.value.properties[SerialPortFileKey] == Base(r.value.port)
    ensures r.Success? ==> BuildPathKey in r.value.properties && r.value.properties[BuildPathKey] == Dir(options.binary)
    ensures r.Success? ==> ProjectNameKey in r.value.properties && r.value.properties[ProjectNameKey] == ProjectName(options.binary)
    ensures r.Success? ==> OthersUnchanged(merged, r.value.properties, goos)
    ensures r.Success? ==> r.value.patternKey == PatternKey(tool)
  {
    var u := SelectCommand(merged, goos);
    KeysDistinct();
    assert Get(u, VerboseParamKey) == Get(merged, VerboseParamKey);
    assert Get(u, VerifyParamKey) == Get(merged, VerifyParamKey);
    var chosen, touched;
    chosen, touched, discovered := ChoosePort(options, use1200bpsTouch, baseline, polls);
    if chosen.Failure? {
      return Failure(NoPort), discovered;
    }
    var port := chosen.value;
    var props := InjectDerivedKeys(u, options, port);
    r := Success(UploadPlan(port, touched, props, PatternKey(tool)));
  }

  /** A binary without an extension keeps its whole base name as project name. */
  lemma ProjectNameWithoutExtension(binary: string)
    requires Ext(binary) == ""
    ensures ProjectName(binary) == Base(binary)
  {
  }

  /** A port's device file is its last path element. */
  lemma PortFileExample()
    ensures Base("/dev/ttyACM0") == "ttyACM0"
  {
    assert "/dev" + "/" + "ttyACM0" == "/dev/ttyACM0";
    BaseOfChild("/dev", "ttyACM0");
  }

  /** A binary in a build directory: that directory is `build.path`. */
  lemma BuildPathExample()
    ensures Dir("build/fw.bin") == "build"
  {
    assert "build" + "/" + "fw.bin" == "build/fw.bin";
    DirOfChild("build", "fw.bin");
  }

  /** An extension as `path.Ext` returns it: a dot, then neither dot nor slash. */
  predicate IsExtension(ext: string)
  {
    ext != [] && ext[0] == '.' && '.' !in ext[1..] && '/' !in ext
  }

  /** `ext` is what `path.Ext` finds at the end of `dir/name` when `name` ends in it. */
  lemma ExtOfFile(dir: string, base: string, ext: string)
    requires IsExtension(ext)
    ensures Ext(dir + "/" + (base + ext)) == ext
  {
    var e := ext[1..];
    assert ext == "." + e;
    assert dir + "/" + (base + ext) == (dir + "/" + base) + "." + e;
    ExtOfSuffix(dir + "/" + base, e);
  }

  /**
   * For a file `stem` + `ext`, where no occurrence of `ext` starts inside
   * `stem`, `build.project_name` is `stem`; dots inside the stem are kept.
   */
  lemma ProjectNameIsStem(dir: string, stem: string, ext: string)
    requires stem != [] && '/' !in stem
    requires IsExtension(ext)
    requires forall i :: 0 <= i < |stem| ==> !OccursAt(stem + ext, ext, i)
    ensures ProjectName(dir + "/" + (stem + ext)) == stem
  {
    BaseOfChild(dir, stem + ext);
    ExtOfFile(dir, stem, ext);
    RemoveAllUnmatchedPrefix(stem, ext, ext);
    RemoveAllLeadingMatch(ext, []);
    assert ext + [] == ext;
  }

  /** A dotted version number in the name survives: `build/fk-1.2.bin` gives `fk-1.2`. */
  lemma DottedProjectName()
    ensures ProjectName("build/fk-1.2.bin") == "fk-1.2"
  {
    var stem, ext := "fk-1.2", ".bin";
    assert "build" + "/" + (stem + ext) == "build/fk-1.2.bin";
    var s := stem + ext;
    forall i | 0 <= i < |stem|
      ensures !OccursAt(s, ext, i)
    {
      if i + |ext| <= |s| {
        assert s[i..i + |ext|][0] == s[i];
        assert s[i..i + |ext|][1] == s[i + 1];
      }
    }
    ProjectNameIsStem("build", stem, ext);
  }

  /**
   * Every occurrence of the extension is deleted, not only the trailing one:
   * `fw.bin.bin` gives `fw`, where trimming the suffix would give `fw.bin`.
   */
  lemma ExtensionRemovedEverywhere(dir: string, stem: string, ext: string)
    requires stem != [] && '/' !in stem
    requires IsExtension(ext)
    requires forall i :: 0 <= i < |stem| ==> !OccursAt(stem + ext, ext, i)
    ensures ProjectName(dir + "/" + (stem + ext + ext)) == stem
  {
    BaseOfChild(dir, stem + ext + ext);
    ExtOfFile(dir, stem + ext, ext);
    RemoveAllUnmatchedDoubled(stem, ext);
  }
}
