// Targets: the type of a target from its file name, its library and
// other dependencies, and Target.meditate, which settles a target's status
// from those of its libraries, its objects and its other build files.
module Targets {
  import opened Errors
  import opened Text
  import opened Decision

  // ---------------------------------------------------------------------
  // Target types

  /** TargetType */
  datatype TargetType = Executable | StaticLib | SharedLib | Unknown

  /** LIB_TYPES */
  predicate LibType(t: TargetType) {
    t == StaticLib || t == SharedLib
  }

  /** os.path.splitext(p)[1]: the text from the last '.', when that dot
    * comes after the last '/' and some character other than '.' comes
    * between the two; otherwise empty. */
  function SplitExt(p: string): string {
    var sep := LastIndexOf(p, '/');
    var dot := LastIndexOf(p, '.');
    if sep < dot && exists k :: sep < k < dot && p[k] != '.' then p[dot..] else ""
  }

  /** The name after the last '/' holds a character other than '.'
    * somewhere before its last character. */
  predicate Named(stem: string) {
    exists k :: LastIndexOf(stem, '/') < k < |stem| && stem[k] != '.'
  }

  /** An extension is empty, or a '.' followed by neither '.' nor '/'; it
    * ends the path, so the path is its root followed by it. */
  lemma SplitExtShape(p: string)
    ensures var e := SplitExt(p);
      e == "" || (e[0] == '.' && '.' !in e[1..] && '/' !in e && EndsWith(p, e))
  {
    var e := SplitExt(p);
    if e != "" {
      var sep := LastIndexOf(p, '/');
      var dot := LastIndexOf(p, '.');
      assert e == p[dot..];
      forall j | 0 <= j < |e|
        ensures e[j] != '/' && (j > 0 ==> e[j] != '.')
      {
        assert e[j] == p[dot + j];
      }
      assert p[|p| - |e|..] == e;
    }
  }

  /** splitext gives back the extension a named stem was given. */
  lemma SplitExtOf(stem: string, ext: string)
    requires |ext| > 0 && ext[0] == '.' && '.' !in ext[1..] && '/' !in ext
    requires Named(stem)
    ensures SplitExt(stem + ext) == ext
  {
    var p := stem + ext;
    var k :| LastIndexOf(stem, '/') < k < |stem| && stem[k] != '.';
    forall j | |stem| <= j < |p|
      ensures p[j] != '/'
    {
      assert p[j] == ext[j - |stem|];
    }
    assert LastIndexOf(p, '/') == LastIndexOf(stem, '/') by {
      var s := LastIndexOf(stem, '/');
      if s >= 0 {
        assert p[s] == stem[s];
        forall j | s < j < |stem|
          ensures p[j] != '/'
        {
          assert p[j] == stem[j];
        }
        LastIndexOfAt(p, '/', s);
      } else {
        forall j | 0 <= j < |p|
          ensures p[j] != '/'
        {
          if j < |stem| {
            assert p[j] == stem[j];
          }
        }
        NoLastIndex(p, '/');
      }
    }
    forall j | |stem| < j < |p|
      ensures p[j] != '.'
    {
      assert p[j] == ext[1..][j - |stem| - 1];
    }
    LastIndexOfAt(p, '.', |stem|);
    assert p[k] == stem[k];
    assert p[|stem|..] == ext;
  }

  /** A string without c has no last c. */
  lemma {:induction false} NoLastIndex(s: string, c: char)
    requires forall j :: 0 <= j < |s| ==> s[j] != c
    ensures LastIndexOf(s, c) == -1
    decreases |s|
  {
    if |s| > 0 {
      NoLastIndex(s[..|s| - 1], c);
    }
  }

  /** Target.type_from_path: no extension is an executable, ".a" a static
    * library, ".so" a shared library, anything else unknown. */
  function TypeFromPath(p: string): TargetType {
    var e := SplitExt(p);
    if e == "" then Executable
    else if e == ".a" then StaticLib
    else if e == ".so" then SharedLib
    else Unknown
  }

  /** The type of a named stem with one of the three known extensions. */
  lemma TypeFromPathOf(stem: string)
    requires Named(stem)
    ensures TypeFromPath(stem + ".a") == StaticLib
    ensures TypeFromPath(stem + ".so") == SharedLib
  {
    SplitExtOf(stem, ".a");
    SplitExtOf(stem, ".so");
  }

  /** A library is known by its extension alone: a path is of a library
    * type exactly when it ends in ".a" or ".so" after a named stem. */
  lemma LibTypeByExtension(p: string)
    ensures LibType(TypeFromPath(p)) <==>
      exists stem :: Named(stem) && (p == stem + ".a" || p == stem + ".so")
  {
    if LibType(TypeFromPath(p)) {
      var e := SplitExt(p);
      SplitExtShape(p);
      var stem := p[..|p| - |e|];
      assert p == stem + e;
      var sep := LastIndexOf(p, '/');
      var dot := LastIndexOf(p, '.');
      var k :| sep < k < dot && p[k] != '.';
      assert |stem| == dot;
      assert LastIndexOf(stem, '/') == sep by {
        if sep >= 0 {
          forall j | sep < j < |stem|
            ensures stem[j] != '/'
          {
            assert stem[j] == p[j];
          }
          assert stem[sep] == p[sep];
          LastIndexOfAt(stem, '/', sep);
        } else {
          forall j | 0 <= j < |stem|
            ensures stem[j] != '/'
          {
            assert stem[j] == p[j];
          }
          NoLastIndex(stem, '/');
        }
      }
      assert stem[k] == p[k];
      assert Named(stem);
    }
    if exists stem :: Named(stem) && (p == stem + ".a" || p == stem + ".so") {
      var stem :| Named(stem) && (p == stem + ".a" || p == stem + ".so");
      TypeFromPathOf(stem);
    }
  }

  // ---------------------------------------------------------------------
  // Dependencies

  /** Target.lib_dependencies: the targets under the library-typed
    * dependency paths, or the ValueError raised for one that names no
    * target. */
  function Libs(deps: set<string>, byPath: map<string, Target>): (r: Result<set<Target>>)
    ensures r.Ok? ==> r.value <= byPath.Values
  {
    if exists d :: d in deps && LibType(TypeFromPath(d)) && d !in byPath then Err(ValueError)
    else Ok(LibTargets(deps, byPath))
  }

  /** The targets under the library-typed paths among ds. */
  function LibTargets(ds: set<string>, byPath: map<string, Target>): set<Target>
    requires forall d :: d in ds && LibType(TypeFromPath(d)) ==> d in byPath
  {
    set d | d in ds && LibType(TypeFromPath(d)) :: byPath[d]
  }

  /** One more path adds its target when it is library-typed. */
  lemma LibTargetsAdd(ds: set<string>, d: string, byPath: map<string, Target>)
    requires forall e :: e in ds + {d} && LibType(TypeFromPath(e)) ==> e in byPath
    ensures LibTargets(ds + {d}, byPath) == LibTargets(ds, byPath) + if LibType(TypeFromPath(d)) then {byPath[d]} else {}
  {
  }

  /** Target.other_dependencies: the dependency paths that are neither
    * libraries nor objects. */
  function Others(deps: set<string>): set<string> {
    set d | d in deps && !LibType(TypeFromPath(d)) && SplitExt(d) != ".o"
  }

  /** Each library target comes from a library-typed dependency path, and
    * each such path gives one; none of them is another dependency. */
  lemma LibsMeaning(deps: set<string>, byPath: map<string, Target>)
    ensures Libs(deps, byPath).Ok? <==> forall d :: d in deps && LibType(TypeFromPath(d)) ==> d in byPath
    ensures Libs(deps, byPath).Ok? ==> forall t :: t in Libs(deps, byPath).value <==>
      exists d :: d in deps && LibType(TypeFromPath(d)) && byPath[d] == t
    ensures forall d :: d in Others(deps) ==> d in deps && !LibType(TypeFromPath(d))
  {
  }

  // ---------------------------------------------------------------------
  // The status rules

  /** max() over a set of statuses, NO_CHANGE when there are none (the
    * else branches of Target.meditate). */
  function SetMax(ss: set<Status>): (m: Status)
    ensures Unchecked !in ss ==> m != Unchecked
  {
    if Changed in ss then Changed
    else if MinorChange in ss then MinorChange
    else if Unchecked in ss && NoChange !in ss then Unchecked
    else NoChange
  }

  /** The maximum of a non-empty set is one of its statuses and no smaller
    * than any. */
  lemma SetMaxBounds(ss: set<Status>)
    ensures ss != {} ==> SetMax(ss) in ss
    ensures forall s :: s in ss ==> Value(s) <= Value(SetMax(ss))
  {
    if ss != {} && SetMax(ss) == NoChange {
      var s :| s in ss;
      assert s == NoChange || s == Unchecked;
    }
  }

  /** Target.other_status: CHANGED when some other dependency is newer
    * than the target file, whose modification time is own. */
  function OtherStatus(others: set<string>, mtime: string -> int, own: int): (r: Status)
    ensures r == Changed || r == NoChange
  {
    if exists d :: d in others && mtime(d) > own then Changed else NoChange
  }

  /** The status Target.meditate settles on: CHANGED when the target file
    * is missing, otherwise the largest of the objects', the libraries'
    * and the other files' statuses. */
  function TargetStatus(exists_: bool, objects: Status, libs: Status, other: Status): Status {
    if !exists_ then Changed else Max(Max(objects, libs), other)
  }

  /** A target is CHANGED when its file is missing or something it is
    * made of changed; it is NO_CHANGE exactly when its file exists and
    * none of its parts changed at all; it is left untouched
    * (MINOR_CHANGE) exactly when its file exists, nothing changed and
    * something changed a little. */
  lemma TargetStatusCases(exists_: bool, objects: Status, libs: Status, other: Status)
    requires objects != Unchecked && libs != Unchecked && other != Unchecked
    ensures TargetStatus(exists_, objects, libs, other) == Changed <==>
      !exists_ || objects == Changed || libs == Changed || other == Changed
    ensures TargetStatus(exists_, objects, libs, other) == NoChange <==>
      exists_ && objects == NoChange && libs == NoChange && other == NoChange
    ensures TargetStatus(exists_, objects, libs, other) == MinorChange <==>
      exists_ && objects != Changed && libs != Changed && other != Changed &&
      (objects == MinorChange || libs == MinorChange || other == MinorChange)
  {
  }

  /** The status Target.meditate settles on once its libraries and
    * objects are settled.  A target of unknown type has no file path
    * (_identify_target gives None), so as written `file_path.exists()`
    * raises an AttributeError; as intended (corrected) such a target is
    * CHANGED.  Any other target is CHANGED when its file is missing, and
    * otherwise takes the largest status of its parts. */
  function Settled(kind: TargetType, fileTime: Option<int>, objStatus: Status, libStatus: Status,
                   others: set<string>, mtime: string -> int, corrected: bool): Result<Status>
  {
    if kind == Unknown then
      if corrected then Ok(Changed) else Err(AttributeError)
    else if fileTime.None? then Ok(Changed)
    else Ok(TargetStatus(true, objStatus, libStatus, OtherStatus(others, mtime, fileTime.value)))
  }

  /** As written, settling a target of unknown type always raises, so the
    * guard `self.type != TargetType.UNKNOWN` before avoid_build never
    * sees one; as intended, such a target is CHANGED and never touched.
    * A target of known type settles the same way under both readings. */
  lemma SettledUnknown(kind: TargetType, fileTime: Option<int>, objStatus: Status, libStatus: Status,
                       others: set<string>, mtime: string -> int)
    ensures kind == Unknown ==>
      Settled(kind, fileTime, objStatus, libStatus, others, mtime, false) == Err(AttributeError)
    ensures kind == Unknown ==>
      Settled(kind, fileTime, objStatus, libStatus, others, mtime, true) == Ok(Changed)
    ensures kind != Unknown ==>
      Settled(kind, fileTime, objStatus, libStatus, others, mtime, false) ==
      Settled(kind, fileTime, objStatus, libStatus, others, mtime, true)
    ensures Settled(kind, fileTime, objStatus, libStatus, others, mtime, false).Ok? ==> kind != Unknown
  {
  }

  /** A settled target is at least as changed as each of its objects and
    * libraries. */
  lemma TargetStatusAtLeast(exists_: bool, objects: set<Status>, libs: set<Status>, other: Status)
    ensures var t := TargetStatus(exists_, SetMax(objects), SetMax(libs), other);
      forall s :: s in objects + libs + {other} ==> Value(s) <= Value(t)
  {
    SetMaxBounds(objects);
    SetMaxBounds(libs);
  }

  /** The statuses of a list of objects. */
  function ObjectStatuses(os: seq<CompileObject>): set<Status>
    reads set o | o in os
  {
    set o | o in os :: o.status
  }

  /** Whether avoid_build has run, object by object. */
  function Touched(os: seq<CompileObject>): (r: seq<bool>)
    reads set o | o in os
    ensures |r| == |os| && forall j :: 0 <= j < |os| ==> r[j] == os[j].touched
  {
    seq(|os|, j reads set o | o in os requires 0 <= j < |os| => os[j].touched)
  }

  /** The statuses of a set of targets. */
  function TargetStatuses(ts: set<Target>): set<Status>
    reads ts
  {
    set t | t in ts :: t.status
  }

  // ---------------------------------------------------------------------
  // The targets of a build directory

  /** The targets of a build directory by the path of their file, with
    * their objects. */
  function Footprint(byPath: map<string, Target>): set<object> {
    var ts: set<object> := byPath.Values;
    ts + set t: Target, o: CompileObject | t in byPath.Values && o in t.objects :: o
  }

  /** What Target.meditate relies on about the targets: each object
    * belongs to one target, once; each object's constructs can be walked;
    * and each target ranks above its libraries, so meditating a library
    * never comes back to the target. */
  ghost predicate Organised(byPath: map<string, Target>) {
    && (forall t, u, o :: t in byPath.Values && u in byPath.Values && o in t.objects && o in u.objects ==> t == u)
    && (forall t, i, j :: t in byPath.Values && 0 <= i < j < |t.objects| ==> t.objects[i] != t.objects[j])
    && (forall t, o :: t in byPath.Values && o in t.objects ==> Walkable(o.sources, o.rank, o.corrected))
    && (forall t, l :: t in byPath.Values && Libs(t.deps, byPath).Ok? && l in Libs(t.deps, byPath).value ==> l.level < t.level)
  }

  /** Targets already settled are left as they were. */
  twostate predicate SettledKept(byPath: map<string, Target>)
    reads byPath.Values
  {
    forall t :: t in byPath.Values && old(t.status) != Unchecked ==>
      t.status == old(t.status) && t.touched == old(t.touched)
  }

  /** The targets ranked at lvl or below, with their objects: what
    * meditating a target of rank lvl may change. */
  ghost function Reach(byPath: map<string, Target>, lvl: int): set<object> {
    (set t | t in byPath.Values && t.level <= lvl :: t as object)
      + set t: Target, o: CompileObject | t in byPath.Values && t.level <= lvl && o in t.objects :: o as object
  }

  lemma ReachMono(byPath: map<string, Target>, lo: int, hi: int)
    requires lo <= hi
    ensures Reach(byPath, lo) <= Reach(byPath, hi)
  {
  }

  lemma ReachWithin(byPath: map<string, Target>, lvl: int)
    ensures Reach(byPath, lvl) <= Footprint(byPath)
  {
  }

  /** The objects of a target, as Target.meditate needs them: each once,
    * and each with constructs that can be walked. */
  ghost predicate ObjectsReady(os: seq<CompileObject>) {
    && (forall i, j :: 0 <= i < j < |os| ==> os[i] != os[j])
    && (forall o :: o in os ==> Walkable(o.sources, o.rank, o.corrected))
  }

  /** An object meditate has run on, whose avoid_build had run before
    * when was is true: its status is the outcome of CompileObject.meditate,
    * and avoid_build has run exactly when that outcome is MINOR_CHANGE or
    * it had run before. */
  ghost predicate Meditated(o: CompileObject, env: Env, was: bool)
    reads o
  {
    && Walkable(o.sources, o.rank, o.corrected)
    && o.Outcome(env).Ok?
    && o.status == o.Outcome(env).value
    && o.touched == (was || o.status == MinorChange)
  }

  /** A target: its name, its type, the modification time of its file
    * (None when the file does not exist; a target of unknown type has no
    * file path at all), its dependency paths and the modification times
    * of those files, its objects and its status.  level ranks it above
    * the libraries it depends on; corrected picks the intended reading of
    * a target of unknown type (see Settled). */
  class Target {
    const name: string
    const kind: TargetType
    const fileTime: Option<int>
    const deps: set<string>
    const mtime: string -> int
    const objects: seq<CompileObject>
    const corrected: bool
    ghost const level: nat
    var status: Status
    var touched: bool               // avoid_build ran

    constructor (name: string, kind: TargetType, fileTime: Option<int>, deps: set<string>,
                 mtime: string -> int, objects: seq<CompileObject>, corrected: bool, ghost level: nat)
      ensures this.name == name && this.kind == kind && this.fileTime == fileTime
      ensures this.deps == deps && this.mtime == mtime && this.objects == objects
      ensures this.corrected == corrected && this.level == level
      ensures status == Unchecked && !touched
    {
      this.corrected := corrected;
      this.name := name;
      this.kind := kind;
      this.fileTime := fileTime;
      this.deps := deps;
      this.mtime := mtime;
      this.objects := objects;
      this.level := level;
      status := Unchecked;
      touched := false;
    }

    /** lib_dependencies: a loop over the dependency paths collecting the
      * targets of the library-typed ones. */
    method LibDependencies(byPath: map<string, Target>) returns (r: Result<set<Target>>)
      ensures r == Libs(deps, byPath)
    {
      var libraries: set<Target> := {};
      var todo := deps;
      ghost var done: set<string> := {};
      while todo != {}
        invariant done + todo == deps && done !! todo
        invariant forall d :: d in done && LibType(TypeFromPath(d)) ==> d in byPath
        invariant libraries == LibTargets(done, byPath)
        decreases todo
      {
        var d :| d in todo;
        if LibType(TypeFromPath(d)) {
          if d !in byPath {
            return Err(ValueError);
          }
          libraries := libraries + {byPath[d]};
        }
        LibTargetsAdd(done, d, byPath);
        todo := todo - {d};
        done := done + {d};
      }
      return Ok(libraries);
    }

    /** The objects of a target of an organised directory are ready for
      * meditate. */
    lemma ObjectsReadyOf(byPath: map<string, Target>)
      requires Organised(byPath) && this in byPath.Values
      ensures ObjectsReady(objects)
    {
    }

    /** A target and its objects are within its own reach, and not within
      * the reach of the targets ranked below it. */
    lemma OwnReach(byPath: map<string, Target>)
      requires Organised(byPath) && this in byPath.Values
      ensures this in Reach(byPath, level) && this !in Reach(byPath, level - 1)
      ensures forall o :: o in objects ==> o in Reach(byPath, level)
      ensures forall j :: 0 <= j < |objects| ==> objects[j] !in Reach(byPath, level - 1)
    {
    }

    /** The libraries of a target are targets of the directory ranked
      * below it. */
    lemma LibsBelow(byPath: map<string, Target>, libs: set<Target>)
      requires Organised(byPath) && this in byPath.Values && Libs(deps, byPath) == Ok(libs)
      ensures forall l :: l in libs ==> l in byPath.Values && l.level < level
    {
    }

    /** meditate: a target already settled is left alone; otherwise its
      * libraries and then its objects are meditated, and its status is
      * the largest of theirs and of its other files', or CHANGED when its
      * file is missing; a MINOR_CHANGE of a known type avoids the
      * build.  As written, a target of unknown type always ends in an
      * AttributeError. */
    method Meditate(env: Env, byPath: map<string, Target>) returns (r: Result<()>)
      requires Organised(byPath) && this in byPath.Values
      modifies Reach(byPath, level)
      ensures SettledKept(byPath)
      ensures old(status) != Unchecked ==> r == Ok(())
      ensures r.Ok? ==> status != Unchecked
      ensures r.Ok? && old(status) == Unchecked ==>
        && Libs(deps, byPath).Ok? && Unchecked !in TargetStatuses(Libs(deps, byPath).value)
        && Unchecked !in ObjectStatuses(objects)
        && Settled(kind, fileTime, SetMax(ObjectStatuses(objects)), SetMax(TargetStatuses(Libs(deps, byPath).value)),
                   Others(deps), mtime, corrected) == Ok(status)
        && touched == (old(touched) || (status == MinorChange && kind != Unknown))
        && forall j :: 0 <= j < |objects| ==> Meditated(objects[j], env, old(objects[j].touched))
      ensures r.Err? ==> status == old(status) && touched == old(touched)
      ensures !corrected && kind == Unknown && old(status) == Unchecked ==> r.Err?
      decreases level, 2
    {
      if status != Unchecked {
        return Ok(());
      }
      r := MeditateAnew(env, byPath);
    }

    /** meditate on a target not yet settled. */
    method MeditateAnew(env: Env, byPath: map<string, Target>) returns (r: Result<()>)
      requires Organised(byPath) && this in byPath.Values && status == Unchecked
      modifies Reach(byPath, level)
      ensures SettledKept(byPath)
      ensures r.Ok? ==>
        && Libs(deps, byPath).Ok? && Unchecked !in TargetStatuses(Libs(deps, byPath).value)
        && Unchecked !in ObjectStatuses(objects)
        && Settled(kind, fileTime, SetMax(ObjectStatuses(objects)), SetMax(TargetStatuses(Libs(deps, byPath).value)),
                   Others(deps), mtime, corrected) == Ok(status)
        && touched == (old(touched) || (status == MinorChange && kind != Unknown))
        && forall j :: 0 <= j < |objects| ==> Meditated(objects[j], env, old(objects[j].touched))
      ensures r.Err? ==> status == old(status) && touched == old(touched)
      decreases level, 1
    {
      var libs := LibDependencies(byPath);
      if libs.Err? {
        return Err(libs.error);
      }
      LibsBelow(byPath, libs.value);
      OwnReach(byPath);
      ObjectsReadyOf(byPath);
      ReachMono(byPath, level - 1, level);
      var libStatus := MeditateLibs(env, byPath, libs.value);
      if libStatus.Err? {
        return Err(libStatus.error);
      }
      r := Finish(env, libs.value, libStatus.value);
    }

    /** The objects of meditate, then its status, once the libraries are
      * settled with the largest status libStatus. */
    method Finish(env: Env, libs: set<Target>, libStatus: Status) returns (r: Result<()>)
      requires ObjectsReady(objects) && this !in libs && libStatus != Unchecked
      modifies this, set o | o in objects
      ensures TargetStatuses(libs) == old(TargetStatuses(libs))
      ensures r.Ok? ==>
        && Unchecked !in ObjectStatuses(objects)
        && Settled(kind, fileTime, SetMax(ObjectStatuses(objects)), libStatus, Others(deps), mtime, corrected) == Ok(status)
        && touched == (old(touched) || (status == MinorChange && kind != Unknown))
        && forall j :: 0 <= j < |objects| ==> Meditated(objects[j], env, old(objects[j].touched))
      ensures r.Err? ==> status == old(status) && touched == old(touched)
    {
      var objStatus := MeditateObjects(env);
      if objStatus.Err? {
        return Err(objStatus.error);
      }
      ghost var objStatuses := ObjectStatuses(objects);
      label objectsDone:
      r := Settle(objStatus.value, libStatus);
      assert ObjectStatuses(objects) == objStatuses;
      assert forall j :: 0 <= j < |objects| ==> unchanged@objectsDone(objects[j]);
    }

    /** The last part of meditate, once the libraries and objects are
      * settled: file_path.exists() (an AttributeError as written when
      * there is no file path), the status, then avoid_build for a
      * MINOR_CHANGE of a known type. */
    method Settle(objStatus: Status, libStatus: Status) returns (r: Result<()>)
      requires objStatus != Unchecked && libStatus != Unchecked
      modifies this
      ensures var want := Settled(kind, fileTime, objStatus, libStatus, Others(deps), mtime, corrected);
        (r.Ok? <==> want.Ok?) && (r.Err? ==> want == Err(r.error))
      ensures r.Ok? ==> status == Settled(kind, fileTime, objStatus, libStatus, Others(deps), mtime, corrected).value
      ensures r.Ok? ==> touched == (old(touched) || (status == MinorChange && kind != Unknown))
      ensures r.Err? ==> status == old(status) && touched == old(touched)
    {
      if kind == Unknown && !corrected {
        return Err(AttributeError);
      }
      if kind != Unknown && fileTime.Some? {
        status := Max(Max(objStatus, libStatus), OtherStatus(Others(deps), mtime, fileTime.value));
      } else {
        status := Changed;
      }
      if status == MinorChange && kind != Unknown {
        touched := true;
      }
      return Ok(());
    }

    /** The loop of meditate over the libraries, then the largest of their
      * statuses. */
    method MeditateLibs(env: Env, byPath: map<string, Target>, libs: set<Target>) returns (r: Result<Status>)
      requires Organised(byPath) && this in byPath.Values
      requires forall l :: l in libs ==> l in byPath.Values && l.level < level
      modifies Reach(byPath, level - 1)
      ensures SettledKept(byPath)
      ensures r.Ok? ==> Unchecked !in TargetStatuses(libs) && r.value == SetMax(TargetStatuses(libs))
      decreases level, 0
    {
      var todo := libs;
      while todo != {}
        invariant todo <= libs && SettledKept(byPath)
        invariant forall l :: l in libs - todo ==> l.status != Unchecked
        decreases todo
      {
        var l :| l in todo;
        ReachMono(byPath, l.level, level - 1);
        label before:
        var done := l.MeditateInLoop(env, byPath);
        if done.Err? {
          return Err(done.error);
        }
        forall k | k in libs - (todo - {l})
          ensures k.status != Unchecked
        {
          if k != l {
            assert old@before(k.status) != Unchecked;
          }
        }
        todo := todo - {l};
      }
      return Ok(SetMax(TargetStatuses(libs)));
    }

    /** meditate as the loops over targets see it: it settles the target
      * and keeps the targets settled before. */
    method MeditateInLoop(env: Env, byPath: map<string, Target>) returns (r: Result<()>)
      requires Organised(byPath) && this in byPath.Values
      modifies Reach(byPath, level)
      ensures SettledKept(byPath)
      ensures r.Ok? ==> status != Unchecked
      decreases level, 3
    {
      r := Meditate(env, byPath);
    }

    /** The loop of meditate over the objects, then the largest of their
      * statuses. */
    method MeditateObjects(env: Env) returns (r: Result<Status>)
      requires ObjectsReady(objects)
      modifies set o | o in objects
      ensures r.Ok? ==> Unchecked !in ObjectStatuses(objects) && r.value == SetMax(ObjectStatuses(objects))
      ensures r.Ok? ==> forall j :: 0 <= j < |objects| ==> Meditated(objects[j], env, old(objects[j].touched))
      ensures r.Err? ==> exists k :: 0 <= k < |objects| && Walkable(objects[k].sources, objects[k].rank, objects[k].corrected) &&
                                     objects[k].Outcome(env) == Err(r.error)
    {
      ghost var was := Touched(objects);
      for i := 0 to |objects|
        invariant forall j :: 0 <= j < i ==> Meditated(objects[j], env, was[j])
        invariant forall j :: i <= j < |objects| ==> objects[j].touched == was[j]
      {
        var o := objects[i];
        assert o in objects;
        var done := o.Meditate(env);
        if done.Err? {
          return Err(done.error);
        }
        assert Meditated(o, env, was[i]);
        forall j | 0 <= j < |objects| && j != i
          ensures objects[j] != o
        {
        }
      }
      return Ok(SetMax(ObjectStatuses(objects)));
    }
  }

  /** BuildDir.meditate: meditate on each target of the directory in
    * turn; each ends settled, and a settled one is left as it was. */
  method MeditateAll(env: Env, byPath: map<string, Target>, targets: set<Target>) returns (r: Result<()>)
    requires Organised(byPath) && targets <= byPath.Values
    modifies Footprint(byPath)
    ensures SettledKept(byPath)
    ensures r.Ok? ==> forall t :: t in targets ==> t.status != Unchecked
  {
    var todo := targets;
    while todo != {}
      invariant todo <= targets && SettledKept(byPath)
      invariant forall t :: t in targets - todo ==> t.status != Unchecked
      decreases todo
    {
      var t :| t in todo;
      ReachWithin(byPath, t.level);
      var done := t.MeditateInLoop(env, byPath);
      if done.Err? {
        return Err(done.error);
      }
      todo := todo - {t};
    }
    return Ok(());
  }
}
