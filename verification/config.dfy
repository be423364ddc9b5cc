/** The admin service's configuration: loading variables from an environment file
    chosen by the environment type, and reading a variable with a fallback. The
    process environment is a map from names to values, the file system a function from
    file names to what reading and parsing the file gives, and the log a list of
    lines. */
module Config {

  /** What loading one environment file gives: its variables, or the error. */
  datatype FileContents = Loaded(vars: map<string, string>) | Failed(err: string)

  /** `".env." + envType` */
  function EnvFileName(envType: string): (r: string)
    ensures |r| == |envType| + 5
    ensures r[..5] == ".env." && r[5..] == envType
  {
    ".env." + envType
  }

  /** `os.LookupEnv(key)`, answering `fallback` when the variable is not set. */
  function Get(env: map<string, string>, key: string, fallback: string): (r: string)
    ensures key in env ==> r == env[key]
    ensures key !in env ==> r == fallback
  {
    if key in env then env[key] else fallback
  }

  /** A variable set to the empty string is set: its empty value wins over the
      fallback. */
  lemma EmptyValueIsSet(env: map<string, string>, key: string, fallback: string)
    requires key in env && env[key] == ""
    ensures Get(env, key, fallback) == ""
  {
  }

  /** The environment after loading `file`: a variable already set keeps its value, and
      the file only adds the variables not set yet. */
  function Merge(env: map<string, string>, file: map<string, string>): (r: map<string, string>)
    ensures r.Keys == env.Keys + file.Keys
    ensures forall k :: k in env ==> r[k] == env[k]
    ensures forall k :: k !in env && k in file ==> r[k] == file[k]
  {
    map k | k in env.Keys + file.Keys :: if k in env then env[k] else file[k]
  }

  /** After a load, a variable that was set reads as before, and one that was not reads
      as the file gives it. */
  lemma GetAfterMerge(env: map<string, string>, file: map<string, string>, key: string,
                      fallback: string)
    ensures key in env ==> Get(Merge(env, file), key, fallback) == Get(env, key, fallback)
    ensures key !in env ==> Get(Merge(env, file), key, fallback) == Get(file, key, fallback)
  {
  }

  /** Loading the same file a second time changes nothing. */
  lemma MergeTwice(env: map<string, string>, file: map<string, string>)
    ensures Merge(Merge(env, file), file) == Merge(env, file)
  {
    var once := Merge(env, file);
    var twice := Merge(once, file);
    assert twice.Keys == once.Keys;
    forall k | k in twice
      ensures twice[k] == once[k]
    {
    }
  }

  class Process {
    var env: map<string, string>
    var log: seq<string>

    constructor (env: map<string, string>)
      ensures this.env == env && log == []
    {
      this.env := env;
      log := [];
    }

    /** `LoadEnv(envType)`: reads `.env.<envType>` through `read`. A failure is only
        logged and leaves the environment as it was; a success merges the file's
        variables in and logs the file name. Either way it returns normally. */
    method LoadEnv(envType: string, read: string -> FileContents)
      modifies this
      ensures read(EnvFileName(envType)).Failed? ==>
        && env == old(env)
        && log == old(log) + ["Could not find load " + EnvFileName(envType) + ": "
                              + read(EnvFileName(envType)).err]
      ensures read(EnvFileName(envType)).Loaded? ==>
        && env == Merge(old(env), read(EnvFileName(envType)).vars)
        && log == old(log) + ["Loaded Environment from " + EnvFileName(envType)]
    {
      var envFile := ".env." + envType;
      match read(envFile)
      case Failed(err) =>
        log := log + ["Could not find load " + envFile + ": " + err];
      case Loaded(vars) =>
        env := Merge(env, vars);
        log := log + ["Loaded Environment from " + envFile];
    }
  }
}
