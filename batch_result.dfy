/** The result file of a batch annotation job (batch_result.rb): the file name and the job id are
    derived from one another, the file sits under `tmp/annotations/`, and the status of a job is
    read from whether its file exists and what it holds. The file system and the JSON parser are
    outside the model: whether the file exists and what parsing it gives are passed in. */
module TextAnnotator {
  import opened Outcomes

  /** `PATH` */
  const Path: string := "tmp/annotations/"

  const Prefix: string := "annotation-"
  const Suffix: string := ".json"

  /** `to_path`: the file name under the result directory. */
  function ToPath(filename: string): (p: string)
    ensures |p| == |Path| + |filename|
    ensures p[..|Path|] == Path && p[|Path|..] == filename
  {
    Path + filename
  }

  /** Different file names are stored at different paths. */
  lemma ToPathInjective(a: string, b: string)
    ensures ToPath(a) == ToPath(b) <==> a == b
  {
    if ToPath(a) == ToPath(b) {
      assert a == ToPath(a)[|Path|..] && b == ToPath(b)[|Path|..];
    }
  }

  /** The file name `"annotation-#{job_id}.json"` of a job. */
  function FilenameOf(jobId: string): string {
    Prefix + jobId + Suffix
  }

  /** `^annotation-(.+)\.json$` on one line: the capture, when the line is a prefix, at least one
      character and the suffix. */
  function LineJobId(line: string): (r: Option<string>)
    ensures r.Some? ==> line == FilenameOf(r.value) && r.value != []
  {
    if |Prefix| + |Suffix| < |line| && line[..|Prefix|] == Prefix && line[|line| - |Suffix|..] == Suffix then
      var j := line[|Prefix|..|line| - |Suffix|];
      assert line == line[..|Prefix|] + j + line[|line| - |Suffix|..];
      Some(j)
    else
      None
  }

  function NewlineAt(s: string): (r: Option<nat>)
    ensures r.None? ==> '\n' !in s
    ensures r.Some? ==> r.value < |s| && s[r.value] == '\n' && '\n' !in s[..r.value]
  {
    if s == [] then None
    else if s[0] == '\n' then Some(0)
    else
      match NewlineAt(s[1..])
      case None => None
      case Some(i) =>
        assert s[..i + 1] == [s[0]] + s[1..][..i];
        Some(i + 1)
  }

  /** `filename =~ /^annotation-(.+)\.json$/; $1`. In a Ruby regexp `^` and `$` anchor at line
      boundaries and `.` does not match a line break, so the first line of the name that has the
      form gives the capture; nil when no line has it. */
  function JobIdOf(filename: string): Option<string>
    decreases |filename|
  {
    match NewlineAt(filename)
    case None => LineJobId(filename)
    case Some(i) =>
      match LineJobId(filename[..i])
      case Some(j) => Some(j)
      case None => JobIdOf(filename[i + 1..])
  }

  /** The job id read back from the file name of a job id is that job id, for every job id that
      is not empty and holds no line break. */
  lemma JobIdRoundTrip(jobId: string)
    requires jobId != [] && '\n' !in jobId
    ensures JobIdOf(FilenameOf(jobId)) == Some(jobId)
  {
    var f := FilenameOf(jobId);
    assert f[..|Prefix|] == Prefix && f[|f| - |Suffix|..] == Suffix;
    assert f[|Prefix|..|f| - |Suffix|] == jobId;
    assert '\n' !in f by {
      assert forall k :: 0 <= k < |f| ==> f[k] in Prefix || f[k] in jobId || f[k] in Suffix by {
        forall k | 0 <= k < |f| ensures f[k] in Prefix || f[k] in jobId || f[k] in Suffix {
          if k < |Prefix| {
            assert f[k] == Prefix[k];
          } else if k < |Prefix| + |jobId| {
            assert f[k] == jobId[k - |Prefix|];
          } else {
            assert f[k] == Suffix[k - |Prefix| - |jobId|];
          }
        }
      }
    }
  }

  /** On a one-line name the pattern matches exactly the names built from a job id, and gives
      that job id back. */
  lemma JobIdOfOneLine(filename: string, jobId: string)
    requires '\n' !in filename
    ensures JobIdOf(filename) == Some(jobId) <==> jobId != [] && filename == FilenameOf(jobId)
  {
    SingleLine(filename);
    assert JobIdOf(filename) == LineJobId(filename);
    if jobId != [] && filename == FilenameOf(jobId) {
      BuiltNameLine(jobId);
      JobIdRoundTrip(jobId);
    }
  }

  /** A job id inside a one-line name holds no line break. */
  lemma BuiltNameLine(jobId: string)
    requires '\n' !in FilenameOf(jobId)
    ensures '\n' !in jobId
  {
    var f := FilenameOf(jobId);
    forall k | 0 <= k < |jobId| ensures jobId[k] != '\n' {
      assert jobId[k] == f[|Prefix| + k];
    }
  }

  /** What `initialize` settles: the file name and the job id (nil when the name does not have
      the form). */
  datatype Naming = Naming(filename: string, jobId: Option<string>)

  /** `initialize(filename = nil, job_id = nil)`: a given file name is kept, even when a job id is
      passed as well, and the job id is read from it; otherwise a given job id names the file;
      with neither, `ArgumentError`. */
  function Derive(filename: Option<string>, jobId: Option<string>): (r: Result<Naming>)
    ensures r.Failure? <==> filename.None? && jobId.None?
    ensures filename.Some? ==> r.Success? && r.value.filename == filename.value && r.value.jobId == JobIdOf(filename.value)
    ensures filename.None? && jobId.Some? ==>
              r.Success? && r.value.jobId == jobId && r.value.filename == "annotation-" + jobId.value + ".json"
  {
    match filename
    case Some(f) => Success(Naming(f, JobIdOf(f)))
    case None =>
      match jobId
      case Some(j) => Success(Naming(FilenameOf(j), Some(j)))
      case None => Failure("Either filename or job_id has to be specified.")
  }

  /** The file name and the job id agree: the job id is the one the pattern reads from the file
      name. */
  predicate Consistent(n: Naming) {
    n.jobId == JobIdOf(n.filename)
  }

  /** A naming from a file name is always consistent; one from a job id is consistent exactly
      when the job id is not empty and holds no line break. */
  lemma DeriveConsistent(filename: Option<string>, jobId: Option<string>)
    requires Derive(filename, jobId).Success?
    ensures filename.Some? ==> Consistent(Derive(filename, jobId).value)
    ensures filename.None? ==> (Consistent(Derive(filename, jobId).value) <==> jobId.value != [] && '\n' !in jobId.value)
  {
    if filename.None? {
      var j := jobId.value;
      if j != [] && '\n' !in j {
        JobIdRoundTrip(j);
      } else if j == [] {
        EmptyJobIdLost();
      } else {
        LineBreakJobIdLost(j);
      }
    }
  }

  /** An empty job id names the file `annotation-.json`, whose name does not give it back. */
  lemma EmptyJobIdLost()
    ensures JobIdOf(FilenameOf("")) == None
  {
    var f := FilenameOf("");
    assert |f| == |Prefix| + |Suffix|;
    assert '\n' !in f by {
      assert f == "annotation-.json";
    }
    SingleLine(f);
  }

  lemma SingleLine(s: string)
    requires '\n' !in s
    ensures NewlineAt(s) == None
  {
  }

  /** A job id with a line break cannot come back whole: every capture is one line. */
  lemma LineBreakJobIdLost(jobId: string)
    requires '\n' in jobId
    ensures JobIdOf(FilenameOf(jobId)) != Some(jobId)
  {
    JobIdsAreLines(FilenameOf(jobId));
  }

  lemma {:induction false} JobIdsAreLines(filename: string)
    ensures JobIdOf(filename).Some? ==> '\n' !in JobIdOf(filename).value
    decreases |filename|
  {
    match NewlineAt(filename)
    case None =>
      if LineJobId(filename).Some? {
        LineNoBreak(filename, LineJobId(filename).value);
      }
    case Some(i) =>
      match LineJobId(filename[..i])
      case Some(j) =>
        LineNoBreak(filename[..i], j);
      case None =>
        JobIdsAreLines(filename[i + 1..]);
  }

  lemma LineNoBreak(line: string, j: string)
    requires '\n' !in line && LineJobId(line) == Some(j)
    ensures '\n' !in j
  {
    forall k | 0 <= k < |j| ensures j[k] != '\n' {
      assert j[k] == line[|Prefix| + k];
    }
  }

  /** A parsed JSON value, object keys as symbols (`symbolize_names: true`). */
  datatype Json =
    | JNull
    | JBool(b: bool)
    | JNumber(n: int)
    | JString(s: string)
    | JArray(items: seq<Json>)
    | JObject(fields: map<string, Json>)

  datatype Status = StatusSuccess | StatusError | StatusNotFound

  const NoMethodError: string := "NoMethodError: undefined method `has_key?'"

  /** `has_key?(:text)` on a value: only a hash answers it. */
  function HasTextKey(j: Json): (r: Result<bool>)
    ensures r.Failure? <==> !j.JObject?
    ensures r.Success? ==> (r.value <==> "text" in j.fields)
  {
    if j.JObject? then Success("text" in j.fields) else Failure(NoMethodError)
  }

  /** `success?`: an array answers with its first element (nil, and so `NoMethodError`, when it
      is empty), anything else answers itself. */
  function Succeeded(annotations: Json): (r: Result<bool>)
    ensures r == Success(true) <==>
              (if annotations.JArray? then annotations.items != [] && annotations.items[0].JObject?
                                          && "text" in annotations.items[0].fields
               else annotations.JObject? && "text" in annotations.fields)
  {
    if annotations.JArray? then
      if annotations.items == [] then Failure(NoMethodError) else HasTextKey(annotations.items[0])
    else
      HasTextKey(annotations)
  }

  /** `status`, with `File.exist?` as `present` and the outcome of `JSON.parse(File.read(...))` as
      `parsed` (a failure is the parser's exception). The file is read only when it exists. */
  function StatusOf(present: bool, parsed: Result<Json>): Result<Status> {
    if !present then Success(StatusNotFound)
    else if parsed.Failure? then Failure(parsed.message)
    else
      match Succeeded(parsed.value)
      case Failure(e) => Failure(e)
      case Success(ok) => Success(if ok then StatusSuccess else StatusError)
  }

  /** The three outcomes: not found exactly when the file is absent; success exactly when it
      present and holds (or starts with) a hash with a `text` key; error when it present and holds
      a hash without one, or an array starting with one. */
  lemma StatusCases(present: bool, parsed: Result<Json>)
    ensures StatusOf(present, parsed) == Success(StatusNotFound) <==> !present
    ensures StatusOf(present, parsed) == Success(StatusSuccess) <==>
              present && parsed.Success? && Succeeded(parsed.value) == Success(true)
    ensures StatusOf(present, parsed) == Success(StatusError) <==>
              present && parsed.Success? && Succeeded(parsed.value) == Success(false)
    ensures parsed.Success? ==> (Succeeded(parsed.value) == Success(false) <==>
              (var a := parsed.value; var h := if a.JArray? && a.items != [] then a.items[0] else a;
               !(a.JArray? && a.items == []) && h.JObject? && "text" !in h.fields))
  {
  }

  /** An absent file is not found whatever a parse would have given: the file is not read. */
  lemma AbsentFileNotRead(p: Result<Json>, q: Result<Json>)
    ensures StatusOf(false, p) == StatusOf(false, q) == Success(StatusNotFound)
  {
  }

  /** `TextAnnotator::BatchResult`: the file name and the job id, and `@filepath` once
      `file_path` has been asked for. */
  class BatchResult {
    const filename: string
    const jobId: Option<string>
    var filePath: Option<string>

    constructor (n: Naming)
      ensures filename == n.filename && jobId == n.jobId && filePath == None
    {
      filename := n.filename;
      jobId := n.jobId;
      filePath := None;
    }

    /** `BatchResult.new(filename, job_id)`, raising `ArgumentError` with neither. */
    static method New(filename: Option<string>, jobId: Option<string>) returns (r: Result<BatchResult>)
      ensures r.Failure? <==> Derive(filename, jobId).Failure?
      ensures r.Failure? ==> r.message == Derive(filename, jobId).message
      ensures r.Success? ==> fresh(r.value) && r.value.filePath == None
      ensures r.Success? ==> Naming(r.value.filename, r.value.jobId) == Derive(filename, jobId).value
    {
      var d := Derive(filename, jobId);
      if d.Failure? {
        r := Failure(d.message);
      } else {
        var b := new BatchResult(d.value);
        r := Success(b);
      }
    }

    /** `file_path`: computed on the first call and kept. */
    method FilePath() returns (p: string)
      modifies this`filePath
      ensures old(filePath) == None ==> p == ToPath(filename)
      ensures old(filePath) != None ==> p == old(filePath).value
      ensures filePath == Some(p)
    {
      if filePath.None? {
        filePath := Some(ToPath(filename));
      }
      p := filePath.value;
    }

    /** The memo only ever holds the path of this object's file name. */
    predicate Valid()
      reads this
    {
      filePath == None || filePath == Some(ToPath(filename))
    }

    /** `status`: `complete?` asks for `file_path` first. */
    method GetStatus(present: bool, parsed: Result<Json>) returns (r: Result<Status>)
      requires Valid()
      modifies this`filePath
      ensures Valid() && filePath == Some(ToPath(filename))
      ensures r == StatusOf(present, parsed)
    {
      var path := FilePath();
      if !present {
        r := Success(StatusNotFound);
      } else if parsed.Failure? {
        r := Failure(parsed.message);
      } else {
        var ok := Succeeded(parsed.value);
        if ok.Failure? {
          r := Failure(ok.message);
        } else if ok.value {
          r := Success(StatusSuccess);
        } else {
          r := Success(StatusError);
        }
      }
    }
  }
}
