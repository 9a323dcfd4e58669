/** The `build_data` dictionary that `parse_build_log` fills, and the
    module-level seen-sets of the g++ classifier, made explicit. */
module BuildRecord {
  import opened Wrappers

  /** An entry of a bucket: a string, or `None`, which is what a bare trailing
      `-I`, `-L` or `-l` contributes. */
  type Value = Option<string>

  /** The six buckets the g++ classifier appends to, each guarded by its own
      seen-set. */
  datatype Bucket = IncludeDirs | LibraryDirs | Libraries | CompilerFlags | Sources | Others

  /** The contents of a `build_data` dictionary, key by key. */
  datatype Record = Record(
    compilerFlags: seq<Value>,
    debugFlags: seq<Value>,
    linkerFlags: seq<Value>,
    includeDirs: seq<Value>,
    libraryDirs: seq<Value>,
    libraries: seq<Value>,
    output: Value,
    sources: seq<Value>,
    others: seq<Value>)
  {
    /** The list stored under the key of bucket `b`. */
    function Get(b: Bucket): seq<Value> {
      match b
      case IncludeDirs => includeDirs
      case LibraryDirs => libraryDirs
      case Libraries => libraries
      case CompilerFlags => compilerFlags
      case Sources => sources
      case Others => others
    }

    /** This record with the list under bucket `b` replaced by `list`. */
    function Put(b: Bucket, list: seq<Value>): (r: Record)
      ensures forall c :: r.Get(c) == if c == b then list else Get(c)
      ensures r.debugFlags == debugFlags && r.linkerFlags == linkerFlags && r.output == output
    {
      match b
      case IncludeDirs => this.(includeDirs := list)
      case LibraryDirs => this.(libraryDirs := list)
      case Libraries => this.(libraries := list)
      case CompilerFlags => this.(compilerFlags := list)
      case Sources => this.(sources := list)
      case Others => this.(others := list)
    }
  }

  /** The dictionary `parse_build_log` starts from: every list empty and
      `output` None. */
  const EmptyRecord := Record([], [], [], [], [], [], None, [], [])

  /** The contents of the six seen-sets. */
  datatype Seen = Seen(
    includes: set<Value>,
    libraryDirs: set<Value>,
    libraries: set<Value>,
    compilerFlags: set<Value>,
    sources: set<Value>,
    others: set<Value>)
  {
    /** The seen-set that guards bucket `b`. */
    function Get(b: Bucket): set<Value> {
      match b
      case IncludeDirs => includes
      case LibraryDirs => libraryDirs
      case Libraries => libraries
      case CompilerFlags => compilerFlags
      case Sources => sources
      case Others => others
    }

    /** These sets with the one guarding bucket `b` replaced by `set'`. */
    function Put(b: Bucket, set': set<Value>): (r: Seen)
      ensures forall c :: r.Get(c) == if c == b then set' else Get(c)
    {
      match b
      case IncludeDirs => this.(includes := set')
      case LibraryDirs => this.(libraryDirs := set')
      case Libraries => this.(libraries := set')
      case CompilerFlags => this.(compilerFlags := set')
      case Sources => this.(sources := set')
      case Others => this.(others := set')
    }
  }

  /** The seen-sets as the module is first imported: all empty. */
  const NothingSeen := Seen({}, {}, {}, {}, {}, {})

  /** A `build_data` dictionary, updated in place by the line handlers. */
  class BuildData {
    var compilerFlags: seq<Value>
    var debugFlags: seq<Value>
    var linkerFlags: seq<Value>
    var includeDirs: seq<Value>
    var libraryDirs: seq<Value>
    var libraries: seq<Value>
    var output: Value
    var sources: seq<Value>
    var others: seq<Value>

    /** The record's current contents. */
    function Snapshot(): Record
      reads this
    {
      Record(compilerFlags, debugFlags, linkerFlags, includeDirs, libraryDirs, libraries, output, sources, others)
    }

    /** The literal at the top of `parse_build_log`. */
    constructor ()
      ensures Snapshot() == EmptyRecord
    {
      compilerFlags, debugFlags, linkerFlags := [], [], [];
      includeDirs, libraryDirs, libraries := [], [], [];
      output, sources, others := None, [], [];
    }
  }

  /** The seen-sets `includes_seen`, `library_dirs_seen`, `libraries_seen`,
      `compiler_flags_seen`, `sources_seen` and `others_seen`.  In the program
      they are module globals, shared by every call and every record; here one
      object is passed to every call instead. */
  class SeenSets {
    var includes: set<Value>
    var libraryDirs: set<Value>
    var libraries: set<Value>
    var compilerFlags: set<Value>
    var sources: set<Value>
    var others: set<Value>

    /** The sets' current contents. */
    function Snapshot(): Seen
      reads this
    {
      Seen(includes, libraryDirs, libraries, compilerFlags, sources, others)
    }

    /** The six empty sets created when the module is imported. */
    constructor ()
      ensures Snapshot() == NothingSeen
    {
      includes, libraryDirs, libraries := {}, {}, {};
      compilerFlags, sources, others := {}, {}, {};
    }
  }
}
