/** The table of include files and its use: open_include_file and record_control_macro of
    cpp/cccp.c, around the reading of a file. */
module IncludeCache {
  import opened Conditionals
  import opened ConditionalsImpl
  import opened IncludeGuard
  import opened Wrappers

  class Includer {
    const files: map<string, seq<Line>>       // what the files contain
    const ev: Evaluator
    var control: map<string, Option<string>>  // the files known so far, with their controlling macros
    var macros: Macros
    var out: seq<Emitted>

    constructor (files: map<string, seq<Line>>, ev: Evaluator)
      ensures Valid() && this.files == files && this.ev == ev && macros == map[] && out == []
    {
      this.files, this.ev, control, macros, out := files, ev, map[], map[], [];
    }

    /** A controlling macro is recorded only for a file that it guards. */
    ghost predicate Valid()
      reads this
    {
      forall f :: f in control ==>
        f in files && (control[f].Some? ==> exists elif :: Guarded(files[f], control[f].value, elif))
    }

    /** Whether the file has to be read. twin is a file known under another name with the same
        inode, if there is one. */
    method OpenIncludeFile(fname: string, twin: Option<string>) returns (open: bool)
      requires Valid() && fname in files
      requires twin.Some? ==> twin.value in control && files[twin.value] == files[fname]
      modifies this`control
      ensures Valid() && fname in control
      ensures open <==> !(control[fname].Some? && control[fname].value in macros)
      ensures control == if fname in old(control) then old(control)
                         else old(control)[fname := if twin.Some? then old(control)[twin.value] else None]
    {
      open := true;
      if fname in control {
        var c := control[fname];
        if c.Some? && c.value in macros { open := false; }
      } else {
        var c := if twin.Some? then control[twin.value] else None;
        control := control[fname := c];
        if c.Some? && c.value in macros { open := false; }
      }
    }

    method RecordControlMacro(fname: string, m: string)
      requires Valid() && fname in files && fname in control && exists elif :: Guarded(files[fname], m, elif)
      modifies this`control
      ensures Valid() && control == old(control)[fname := Some(m)]
    {
      control := control[fname := Some(m)];
    }

    /** What reading the file does to the macros and the output, without any cache. */
    ghost function Fresh(fname: string): State
      requires fname in files
      reads this
    {
      Rescan(State([], macros, out, [], [], [], 0, true, None), files[fname], 0, ev)
    }

    /** #include: read the file, or do not because of the cache, which makes no difference unless the
        condition of an #elif of the guarding section holds. */
    method Include(fname: string, twin: Option<string>)
      requires Valid() && fname in files
      requires twin.Some? ==> twin.value in control && files[twin.value] == files[fname]
      modifies this
      ensures Valid()
      ensures !SomeHolds(GuardElifs(files[fname]), old(macros), ev) ==>
              macros == old(Fresh(fname)).macros && out == old(Fresh(fname)).out
    {
      ghost var s := State([], macros, out, [], [], [], 0, true, None);
      var open := OpenIncludeFile(fname, twin);
      if open {
        var file := new InputFile(files[fname], [], macros, ev);
        file.out := out;
        file.Rescan();
        macros, out := file.macros, file.out;
        if file.recorded.Some? {
          RecordedMeansGuarded(s, files[fname], 0, ev);
          RecordControlMacro(fname, file.recorded.value);
        }
      } else {
        ghost var elif :| Guarded(files[fname], control[fname].value, elif);
        HidesTextIff(s, files[fname], control[fname].value, elif, 0, ev);
      }
    }
  }
}
