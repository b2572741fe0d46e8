/**
 * Startup configuration: the required-variable check run before anything
 * else, the storage directories it then creates, and the voice-model device.
 * The process environment is a map from variable name to value.
 */
module Config {
  import opened Wrappers
  import opened Text
  import opened Paths

  type Env = map<string, string>

  /** The variables that must be set to something non-empty, in reporting order. */
  const Required: seq<string> := ["OPENAI_API_KEY", "YOUTUBE_API_KEY", "OBS_WS_PASSWORD"]

  const MissingPrefix := "Missing required environment variables: "

  const StorageDir := "storage"
  const HistoryDir := JoinPath(StorageDir, "history")
  const BackupsDir := JoinPath(HistoryDir, "backups")
  const HipporagDir := JoinPath(StorageDir, "hipporag")
  const VoiceModelDir := JoinPath(StorageDir, "voice_model/Anneli")
  const PromptsDir := "prompts"

  /** The directories `validate` creates, in creation order. */
  const Created: seq<string> := [HistoryDir, BackupsDir, HipporagDir, VoiceModelDir, PromptsDir]

  /** `os.getenv(name)` is truthy: present and not the empty string. */
  predicate IsSet(env: Env, name: string) {
    name in env && env[name] != ""
  }

  /** `a` is `b` with some elements deleted, order kept. */
  predicate IsSubsequence(a: seq<string>, b: seq<string>)
    decreases |b|
  {
    if a == [] then true
    else if b == [] then false
    else if a[0] == b[0] then IsSubsequence(a[1..], b[1..])
    else IsSubsequence(a, b[1..])
  }

  /** The names in `names` whose variable is unset or empty, in the order given. */
  function MissingFrom(env: Env, names: seq<string>): (r: seq<string>)
    ensures forall k :: k in r <==> k in names && !IsSet(env, k)
    ensures IsSubsequence(r, names)
  {
    if names == [] then []
    else
      var rest := MissingFrom(env, names[1..]);
      assert forall k :: k in names <==> k == names[0] || k in names[1..];
      if IsSet(env, names[0]) then
        SubsequenceOfTail(rest, names);
        rest
      else
        assert ([names[0]] + rest)[1..] == rest;
        [names[0]] + rest
  }

  lemma {:induction false} SubsequenceOfTail(a: seq<string>, b: seq<string>)
    requires b != [] && IsSubsequence(a, b[1..])
    ensures IsSubsequence(a, b)
    decreases |b|, |a|
  {
    if a != [] && a[0] == b[0] {
      SubsequenceDropFirst(a, b[1..]);
    }
  }

  lemma {:induction false} SubsequenceDropFirst(a: seq<string>, b: seq<string>)
    requires a != [] && IsSubsequence(a, b)
    ensures IsSubsequence(a[1..], b)
    decreases |b|, |a|
  {
    if b != [] {
      if a[0] == b[0] {
        if a[1..] != [] {
          SubsequenceOfTail(a[1..], b);
        }
      } else {
        SubsequenceDropFirst(a, b[1..]);
        SubsequenceOfTail(a[1..], b);
      }
    }
  }

  function Missing(env: Env): seq<string> {
    MissingFrom(env, Required)
  }

  /** What `validate` leaves behind: the error it raised, if any, and the directories that exist. */
  datatype Validation = Validation(error: Option<string>, dirs: set<string>)

  /** The union of a list of sets. */
  function UnionAll(ss: seq<set<string>>): (r: set<string>)
    ensures forall x :: x in r <==> exists i :: 0 <= i < |ss| && x in ss[i]
    decreases |ss|
  {
    if ss == [] then {}
    else
      var r := ss[0] + UnionAll(ss[1..]);
      assert forall i :: 1 <= i < |ss| ==> ss[1..][i - 1] == ss[i];
      r
  }

  /** The directories `os.makedirs` creates for each path of the list. */
  function AncestorSets(paths: seq<string>): (r: seq<set<string>>)
    ensures |r| == |paths| && forall i :: 0 <= i < |paths| ==> r[i] == Ancestors(paths[i])
  {
    seq(|paths|, i requires 0 <= i < |paths| => Ancestors(paths[i]))
  }

  /** Every directory `os.makedirs` creates for some path of the list. */
  function AllAncestors(paths: seq<string>): (r: set<string>)
    ensures forall d :: d in r <==> exists i :: 0 <= i < |paths| && d in Ancestors(paths[i])
  {
    var ss := AncestorSets(paths);
    var r := UnionAll(ss);
    assert forall d :: d in r <==> exists i :: 0 <= i < |ss| && d in ss[i];
    r
  }

  /**
   * `os.makedirs(p, exist_ok=True)` for each path in turn: the directories
   * that existed stay, every listed path and each of its intermediate
   * directories now exists, and nothing else is created.
   */
  function MakeAll(dirs: set<string>, paths: seq<string>): (r: set<string>)
    ensures r == dirs + AllAncestors(paths)
    ensures dirs <= r
    ensures forall i :: 0 <= i < |paths| ==> paths[i] in r
    ensures forall d :: d in r ==> d in dirs || exists i :: 0 <= i < |paths| && d in Ancestors(paths[i])
    decreases |paths|
  {
    if paths == [] then dirs
    else
      var r := MakeAll(dirs + Ancestors(paths[0]), paths[1..]);
      assert AncestorSets(paths)[1..] == AncestorSets(paths[1..]);
      r
  }

  /**
   * `Config.validate`: with any required variable missing it raises before
   * touching the filesystem, naming the missing variables in order; otherwise
   * it creates every storage directory.
   */
  function Validate(env: Env, dirs: set<string>): (r: Validation)
    ensures r.error.Some? <==> Missing(env) != []
    ensures r.error.Some? ==> r.error.value == MissingPrefix + Text.Join(Missing(env), ", ") && r.dirs == dirs
    ensures r.error.None? ==> dirs <= r.dirs && forall i :: 0 <= i < |Created| ==> Created[i] in r.dirs
  {
    var missing := Missing(env);
    if missing != [] then Validation(Some(MissingPrefix + Text.Join(missing, ", ")), dirs)
    else Validation(None, MakeAll(dirs, Created))
  }

  lemma HistoryDirSpelledOut()
    ensures HistoryDir == "storage/history"
  {
    PlainJoin(StorageDir, "history");
  }

  lemma BackupsDirSpelledOut()
    ensures BackupsDir == "storage/history/backups"
  {
    HistoryDirSpelledOut();
    PlainJoin("storage/history", "backups");
  }

  lemma HipporagDirSpelledOut()
    ensures HipporagDir == "storage/hipporag"
  {
    PlainJoin(StorageDir, "hipporag");
  }

  lemma VoiceModelDirSpelledOut()
    ensures VoiceModelDir == "storage/voice_model/Anneli"
  {
    PlainJoin(StorageDir, "voice_model/Anneli");
  }

  /** The five directories, spelled out. */
  lemma CreatedSpelledOut()
    ensures Created == ["storage/history", "storage/history/backups", "storage/hipporag", "storage/voice_model/Anneli", "prompts"]
  {
    HistoryDirSpelledOut();
    BackupsDirSpelledOut();
    HipporagDirSpelledOut();
    VoiceModelDirSpelledOut();
  }

  /** Success needs every required variable. */
  lemma ValidateSucceedsIffAllSet(env: Env, dirs: set<string>)
    ensures Validate(env, dirs).error.None? <==> forall i :: 0 <= i < |Required| ==> IsSet(env, Required[i])
  {
    var m := Missing(env);
    if m == [] {
      forall i | 0 <= i < |Required| ensures IsSet(env, Required[i]) {
        assert Required[i] !in m;
      }
    } else {
      assert m[0] in m;
    }
  }

  /** On success the storage tree exists, down to every leaf directory. */
  lemma ValidateCreatesStorage(env: Env, dirs: set<string>)
    requires IsSet(env, "OPENAI_API_KEY") && IsSet(env, "YOUTUBE_API_KEY") && IsSet(env, "OBS_WS_PASSWORD")
    ensures Validate(env, dirs).error.None?
    ensures var made := Validate(env, dirs).dirs;
            && "storage/history" in made && "storage/history/backups" in made
            && "storage/hipporag" in made && "storage/voice_model/Anneli" in made && "prompts" in made
  {
    ValidateSucceedsIffAllSet(env, dirs);
    CreatedSpelledOut();
    var made := Validate(env, dirs).dirs;
    assert Created[0] in made && Created[1] in made && Created[2] in made && Created[3] in made && Created[4] in made;
  }

  /** With only the chat-platform key set, both other names are reported, in order. */
  lemma OnlyYoutubeKeySet()
    ensures Missing(map["YOUTUBE_API_KEY" := "k", "OBS_WS_PASSWORD" := ""]) == ["OPENAI_API_KEY", "OBS_WS_PASSWORD"]
    ensures Validate(map["YOUTUBE_API_KEY" := "k", "OBS_WS_PASSWORD" := ""], {}).error ==
            Some(MissingPrefix + "OPENAI_API_KEY, OBS_WS_PASSWORD")
  {
    OnlyYoutubeKeySetMissing();
    JoinTwoNames();
  }

  lemma OnlyYoutubeKeySetMissing()
    ensures Missing(map["YOUTUBE_API_KEY" := "k", "OBS_WS_PASSWORD" := ""]) == ["OPENAI_API_KEY", "OBS_WS_PASSWORD"]
  {
    var env := map["YOUTUBE_API_KEY" := "k", "OBS_WS_PASSWORD" := ""];
    assert Required[1..][1..][1..] == [];
    assert MissingFrom(env, Required[1..][1..]) == ["OBS_WS_PASSWORD"];
    assert MissingFrom(env, Required[1..]) == ["OBS_WS_PASSWORD"];
  }

  lemma JoinTwoNames()
    ensures Text.Join(["OPENAI_API_KEY", "OBS_WS_PASSWORD"], ", ") == "OPENAI_API_KEY, OBS_WS_PASSWORD"
  {
    var names := ["OPENAI_API_KEY", "OBS_WS_PASSWORD"];
    assert names[1..] == ["OBS_WS_PASSWORD"];
  }

  /** `os.getenv("USE_CUDA", "true").lower() == "true"` picks the GPU. */
  function Device(env: Env): (r: string)
    ensures r == "cuda" || r == "cpu"
    ensures r == "cuda" <==> Lower(if "USE_CUDA" in env then env["USE_CUDA"] else "true") == "true"
  {
    if Lower(if "USE_CUDA" in env then env["USE_CUDA"] else "true") == "true" then "cuda" else "cpu"
  }

  /** Unset means GPU; the comparison ignores case; any other value means CPU. */
  lemma DeviceChoices(env: Env)
    ensures "USE_CUDA" !in env ==> Device(env) == "cuda"
    ensures Device(env["USE_CUDA" := "TRUE"]) == "cuda"
    ensures Device(env["USE_CUDA" := "1"]) == "cpu"
  {
    assert Lower("TRUE") == "true";
    assert Lower("1") != "true" by {
      assert |Lower("1")| == 1;
    }
    if "USE_CUDA" !in env {
      assert Lower("true") == "true";
    }
  }
}
