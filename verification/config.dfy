/** The `.env` parser and the environment-over-file merge of
    `internal/config`. The file system and the process environment are
    inputs: the env file is an `EnvFile`, the environment a map in which an
    absent name reads as `""`, exactly as `os.Getenv` reports it.
 */
module Config {
  import opened Wrappers
  import opened Text

  /** `m[k]` with Go's zero value for a missing key. */
  function Lookup(m: map<string, string>, k: string): string {
    if k in m then m[k] else ""
  }

  // ---------------------------------------------------------------------
  // parseEnv

  datatype Binding = Binding(key: string, value: string)

  predicate IsQuote(c: char) {
    c == '"' || c == '\''
  }

  /** What a stored key always looks like: non-empty, no `=`, no
      surrounding white space. */
  predicate WellFormedKey(k: string) {
    k != "" && '=' !in k && !IsSpace(k[0]) && !IsSpace(k[|k| - 1])
  }

  /** What a stored value always looks like: no quote character at either end. */
  predicate CleanValueShape(v: string) {
    v == [] || (!IsQuote(v[0]) && !IsQuote(v[|v| - 1]))
  }

  /** A binding as the parser stores it. */
  predicate Shaped(b: Binding) {
    WellFormedKey(b.key) && CleanValueShape(b.value)
  }

  /** The value steps in order: trim, drop one trailing comma, trim again,
      strip every leading and trailing quote character. */
  function CleanValue(raw: string): (v: string)
    ensures CleanValueShape(v)
  {
    var unquoted := TrimSpace(TrimSuffixChar(TrimSpace(raw), ','));
    TrimBy(unquoted, IsQuote)
  }

  /** One line of the file: ignored when, once trimmed, it is blank, a
      comment or without `=`, or when its key is empty; otherwise a binding
      of the trimmed text before the first `=` to the cleaned text after it. */
  function ParseLine(line: string): (b: Option<Binding>)
    ensures var t := TrimSpace(line);
      t == "" || t[0] == '#' || '=' !in t ==> b.None?
    ensures var t := TrimSpace(line);
      t != "" && '=' in t && TrimSpace(t[..IndexOf(t, '=')]) == "" ==> b.None?
    ensures b.Some? ==> Shaped(b.value)
  {
    var t := TrimSpace(line);
    if t == "" || t[0] == '#' then None
    else
      var idx := IndexOf(t, '=');
      if idx == -1 then None
      else
        var key := TrimSpace(t[..idx]);
        if key == "" then None
        else
          KeyShape(t[..idx]);
          Some(Binding(key, CleanValue(t[idx + 1..])))
  }

  /** The trimmed text before the first `=` is a well-formed key unless empty. */
  lemma KeyShape(s: string)
    requires '=' !in s
    ensures TrimSpace(s) == "" || WellFormedKey(TrimSpace(s))
  {
    var k := TrimSpace(s);
    TrimByKeeps(s, IsSpace);
    assert forall c :: c in k ==> c in s;
  }

  /** Parsing inverts writing: a line `key=value` gives back that binding
      whenever the key is well formed and does not open a comment, and the
      value is already in the shape the cleaning steps leave (no
      surrounding white space or quotes, no trailing comma). The value may
      itself hold `=`. */
  lemma ParseLineRoundTrip(k: string, v: string)
    requires WellFormedKey(k) && k[0] != '#'
    requires CleanValueShape(v)
    requires v != [] ==> !IsSpace(v[0]) && !IsSpace(v[|v| - 1]) && v[|v| - 1] != ','
    ensures ParseLine(k + "=" + v) == Some(Binding(k, v))
  {
    SplitsAtFirstEquals(k, v);
    TrimByUnchanged(k, IsSpace);
    CleanValueFixed(v);
  }

  /** A padded line: white space around the key is trimmed away, and the
      value is whatever the cleaning steps make of all the text after the
      first `=`, however it is padded. */
  lemma ParseLinePadded(p1: string, k: string, p2: string, raw: string)
    requires AllBy(p1, IsSpace) && AllBy(p2, IsSpace)
    requires WellFormedKey(k) && k[0] != '#'
    ensures ParseLine(p1 + k + p2 + "=" + raw) == Some(Binding(k, CleanValue(raw)))
  {
    var key := k + p2;
    assert p1 + k + p2 == p1 + key;
    assert key[0] == k[0];
    var v0 := TrimPaddedLine(p1, key, raw);
    ParseTrimmedLine(p1 + key + "=" + raw, k, p2, v0);
    CleanDependsOnTrim(v0, raw);
  }

  /** Cleaning sees only the trimmed value. */
  lemma CleanDependsOnTrim(x: string, y: string)
    requires TrimSpace(x) == TrimSpace(y)
    ensures CleanValue(x) == CleanValue(y)
  {
  }

  /** Trimming a line `key=raw` with padding in front: the key's side is
      kept as it is and the value's side loses only white space. */
  lemma TrimPaddedLine(p1: string, key: string, raw: string) returns (v0: string)
    requires AllBy(p1, IsSpace)
    requires key != [] && !IsSpace(key[0])
    ensures TrimSpace(p1 + key + "=" + raw) == key + "=" + v0
    ensures TrimSpace(v0) == TrimSpace(raw)
  {
    var a, b := TrimByParts(raw, IsSpace);
    var m := TrimSpace(raw);
    if m == [] {
      assert raw == a + b;
      AllByAppend(a, b, IsSpace);
      v0 := [];
      assert p1 + key + "=" + raw == p1 + (key + "=") + raw;
      TrimByPadded(p1, key + "=", raw, IsSpace);
    } else {
      v0 := a + m;
      var t := key + "=" + v0;
      assert p1 + key + "=" + raw == p1 + t + b;
      assert t[0] == key[0] && t[|t| - 1] == m[|m| - 1];
      TrimByPadded(p1, t, b, IsSpace);
      TrimByPadded(a, m, [], IsSpace);
      assert a + m + [] == v0;
    }
  }

  /** A line that trims to `key`, white space, `=` and `v0` binds the key
      to the cleaned `v0`. */
  lemma ParseTrimmedLine(line: string, k: string, p2: string, v0: string)
    requires AllBy(p2, IsSpace)
    requires WellFormedKey(k) && k[0] != '#'
    requires TrimSpace(line) == k + p2 + "=" + v0
    ensures ParseLine(line) == Some(Binding(k, CleanValue(v0)))
  {
    var key := k + p2;
    KeyBeforeEquals(k, p2, v0);
    TrimByPadded([], k, p2, IsSpace);
    assert [] + k + p2 == key;
  }

  /** In `key=v0` with a padded key free of `=`, the first `=` ends the key. */
  lemma KeyBeforeEquals(k: string, p2: string, v0: string)
    requires AllBy(p2, IsSpace) && WellFormedKey(k)
    ensures var key, t := k + p2, k + p2 + "=" + v0;
      t[0] == k[0] && IndexOf(t, '=') == |key| && t[..|key|] == key && t[|key| + 1..] == v0
  {
    var key := k + p2;
    var t := key + "=" + v0;
    assert t[0] == k[0];
    assert '=' !in key by {
      assert forall i :: 0 <= i < |key| ==> key[i] == if i < |k| then k[i] else p2[i - |k|];
    }
    IndexOfAfter(key, '=', v0);
    assert t[..|key|] == key && t[|key| + 1..] == v0;
  }

  /** A quoted value: padding, one trailing comma and the surrounding runs
      of quote characters are removed, and the text between is kept. */
  lemma CleanValueQuoted(p1: string, q1: string, v: string, q2: string, p2: string, comma: bool, p3: string)
    requires AllBy(p1, IsSpace) && AllBy(p2, IsSpace) && AllBy(p3, IsSpace)
    requires q1 != [] && AllBy(q1, IsQuote) && q2 != [] && AllBy(q2, IsQuote)
    requires CleanValueShape(v)
    ensures CleanValue(p1 + q1 + v + q2 + p2 + (if comma then "," else "") + p3) == v
  {
    var core := q1 + v + q2;
    QuotedCore(q1, v, q2);
    CleanPadded(p1, core, p2, comma, p3);
    assert p1 + q1 + v + q2 == p1 + core;
  }

  /** A run of quotes on each side of a clean value: the quotes are the
      ends, and stripping them leaves the value. */
  lemma QuotedCore(q1: string, v: string, q2: string)
    requires q1 != [] && AllBy(q1, IsQuote) && q2 != [] && AllBy(q2, IsQuote)
    requires CleanValueShape(v)
    ensures var core := q1 + v + q2;
      core != [] && IsQuote(core[0]) && IsQuote(core[|core| - 1]) && TrimBy(core, IsQuote) == v
  {
    var core := q1 + v + q2;
    assert core[0] == q1[0] && core[|core| - 1] == q2[|q2| - 1];
    TrimByPadded(q1, v, q2, IsQuote);
  }

  /** A middle whose ends are neither white space nor a comma, padded and
      optionally followed by one comma, cleans as the middle alone does. */
  lemma CleanPadded(p1: string, core: string, p2: string, comma: bool, p3: string)
    requires AllBy(p1, IsSpace) && AllBy(p2, IsSpace) && AllBy(p3, IsSpace)
    requires core != [] && !IsSpace(core[0]) && !IsSpace(core[|core| - 1]) && core[|core| - 1] != ','
    ensures CleanValue(p1 + core + p2 + (if comma then "," else "") + p3) == TrimBy(core, IsQuote)
  {
    if comma {
      CleanPaddedComma(p1, core, p2, p3);
    } else {
      CleanPaddedNoComma(p1, core, p2, p3);
      assert p1 + core + p2 + "" == p1 + core + p2;
    }
  }

  lemma CleanPaddedComma(p1: string, core: string, p2: string, p3: string)
    requires AllBy(p1, IsSpace) && AllBy(p2, IsSpace) && AllBy(p3, IsSpace)
    requires core != [] && !IsSpace(core[0]) && !IsSpace(core[|core| - 1])
    ensures CleanValue(p1 + core + p2 + "," + p3) == TrimBy(core, IsQuote)
  {
    TrimByPadded([], core, p2, IsSpace);
    assert [] + core + p2 == core + p2;
    var mid := core + p2 + ",";
    assert p1 + core + p2 + "," == p1 + mid;
    assert mid[0] == core[0] && mid[|mid| - 1] == ',';
    TrimByPadded(p1, mid, p3, IsSpace);
    CleanAfterComma(p1 + mid + p3, core + p2);
  }

  lemma CleanPaddedNoComma(p1: string, core: string, p2: string, p3: string)
    requires AllBy(p1, IsSpace) && AllBy(p2, IsSpace) && AllBy(p3, IsSpace)
    requires core != [] && !IsSpace(core[0]) && !IsSpace(core[|core| - 1]) && core[|core| - 1] != ','
    ensures CleanValue(p1 + core + p2 + p3) == TrimBy(core, IsQuote)
  {
    assert p1 + core + p2 + p3 == p1 + core + (p2 + p3);
    AllByAppend(p2, p3, IsSpace);
    TrimByPadded(p1, core, p2 + p3, IsSpace);
    CleanWithoutComma(p1 + core + (p2 + p3), core);
  }

  /** Once trimmed, the value ends in a comma: the comma goes and the rest
      is trimmed again before the quotes are stripped. */
  lemma CleanAfterComma(raw: string, x: string)
    requires TrimSpace(raw) == x + ","
    ensures CleanValue(raw) == TrimBy(TrimSpace(x), IsQuote)
  {
    assert TrimSuffixChar(x + ",", ',') == x;
  }

  /** Once trimmed, the value does not end in a comma: only the quotes go. */
  lemma CleanWithoutComma(raw: string, x: string)
    requires TrimSpace(raw) == x && (x == [] || x[|x| - 1] != ',')
    ensures CleanValue(raw) == TrimBy(x, IsQuote)
  {
    TrimByUnchanged(x, IsSpace);
  }

  /** An unquoted value: padding and one trailing comma are removed, and
      the text between is kept. */
  lemma CleanValueBare(p1: string, v: string, p2: string, comma: bool, p3: string)
    requires AllBy(p1, IsSpace) && AllBy(p2, IsSpace) && AllBy(p3, IsSpace)
    requires v != [] && !IsSpace(v[0]) && !IsSpace(v[|v| - 1]) && v[|v| - 1] != ','
    requires CleanValueShape(v)
    ensures CleanValue(p1 + v + p2 + (if comma then "," else "") + p3) == v
  {
    CleanPadded(p1, v, p2, comma, p3);
    TrimByUnchanged(v, IsQuote);
  }

  /** A messy quoted line parses to its key and the text between the quotes. */
  lemma ParseLineQuoted(p1: string, k: string, p2: string, p3: string, q1: string, v: string, q2: string,
                        p4: string, comma: bool, p5: string)
    requires AllBy(p1, IsSpace) && AllBy(p2, IsSpace) && AllBy(p3, IsSpace) && AllBy(p4, IsSpace) && AllBy(p5, IsSpace)
    requires WellFormedKey(k) && k[0] != '#'
    requires q1 != [] && AllBy(q1, IsQuote) && q2 != [] && AllBy(q2, IsQuote)
    requires CleanValueShape(v)
    ensures ParseLine(p1 + k + p2 + "=" + p3 + q1 + v + q2 + p4 + (if comma then "," else "") + p5)
         == Some(Binding(k, v))
  {
    var raw := p3 + q1 + v + q2 + p4 + (if comma then "," else "") + p5;
    assert p1 + k + p2 + "=" + p3 + q1 + v + q2 + p4 + (if comma then "," else "") + p5 == p1 + k + p2 + "=" + raw;
    ParseLinePadded(p1, k, p2, raw);
    CleanValueQuoted(p3, q1, v, q2, p4, comma, p5);
  }

  /** `key=value` is already trimmed, and its first `=` follows the key. */
  lemma SplitsAtFirstEquals(k: string, v: string)
    requires WellFormedKey(k)
    requires v != [] ==> !IsSpace(v[|v| - 1])
    ensures var line := k + "=" + v;
      && TrimSpace(line) == line && line[0] == k[0]
      && IndexOf(line, '=') == |k| && line[..|k|] == k && line[|k| + 1..] == v
  {
    var line := k + "=" + v;
    assert line[0] == k[0];
    assert line[|line| - 1] == if v == [] then '=' else v[|v| - 1];
    TrimByUnchanged(line, IsSpace);
    assert line[..|k|] == k && line[|k|] == '=' && line[|k| + 1..] == v;
  }

  /** A value already in cleaned shape is left as it is. */
  lemma CleanValueFixed(v: string)
    requires CleanValueShape(v)
    requires v != [] ==> !IsSpace(v[0]) && !IsSpace(v[|v| - 1]) && v[|v| - 1] != ','
    ensures CleanValue(v) == v
  {
    TrimByUnchanged(v, IsSpace);
    assert TrimSuffixChar(v, ',') == v;
    TrimByUnchanged(v, IsQuote);
  }

  predicate BindsKey(b: Option<Binding>, k: string) {
    b.Some? && b.value.key == k
  }

  /** Go's loop over the lines, written as a fold over the prefix: a later
      binding of a key replaces an earlier one. */
  function Apply(bs: seq<Option<Binding>>): map<string, string>
    decreases |bs|
  {
    if bs == [] then map[]
    else
      var m := Apply(bs[..|bs| - 1]);
      match bs[|bs| - 1]
      case None => m
      case Some(b) => m[b.key := b.value]
  }

  /** Last binding wins: a key is stored iff some line binds it, and its
      value is the one from the last line that binds it. */
  lemma {:induction false} ApplyLastWins(bs: seq<Option<Binding>>, k: string)
    ensures k in Apply(bs) <==> exists i :: 0 <= i < |bs| && BindsKey(bs[i], k)
    ensures k in Apply(bs) ==>
      exists i :: 0 <= i < |bs| && bs[i] == Some(Binding(k, Apply(bs)[k])) &&
        forall j :: i < j < |bs| ==> !BindsKey(bs[j], k)
    decreases |bs|
  {
    if bs != [] {
      var n := |bs| - 1;
      var init := bs[..n];
      var m := Apply(init);
      ApplyLastWins(init, k);
      assert forall i :: 0 <= i < n ==> init[i] == bs[i];
      if BindsKey(bs[n], k) {
        assert Apply(bs) == m[k := bs[n].value.value];
        assert bs[n] == Some(Binding(k, Apply(bs)[k]));
      } else {
        assert k in Apply(bs) <==> k in m;
        assert k in m ==> Apply(bs)[k] == m[k];
        assert (exists i :: 0 <= i < |bs| && BindsKey(bs[i], k)) ==> exists i :: 0 <= i < n && BindsKey(init[i], k);
        if k in m {
          var i :| 0 <= i < n && init[i] == Some(Binding(k, m[k])) &&
            forall j :: i < j < n ==> !BindsKey(init[j], k);
          assert bs[i] == Some(Binding(k, Apply(bs)[k]));
          assert forall j :: i < j < |bs| ==> !BindsKey(bs[j], k);
        }
      }
    }
  }

  function ParseLines(lines: seq<string>): (bs: seq<Option<Binding>>)
    ensures |bs| == |lines|
    ensures forall i :: 0 <= i < |lines| ==> bs[i] == ParseLine(lines[i])
    ensures forall i :: 0 <= i < |bs| && bs[i].Some? ==> Shaped(bs[i].value)
  {
    seq(|lines|, i requires 0 <= i < |lines| => ParseLine(lines[i]))
  }

  /** Go's `parseEnv`: the lines are split at `\n`, and every stored entry is
      the binding of some line, so its key is well formed and its value has
      no surrounding quotes. */
  function ParseEnv(content: string): (m: map<string, string>)
    ensures forall k :: k in m ==> WellFormedKey(k) && CleanValueShape(m[k])
  {
    var bs := ParseLines(Split(content, '\n'));
    ApplyShaped(bs);
    Apply(bs)
  }

  /** Storing shaped bindings gives a map of shaped entries. */
  lemma {:induction false} ApplyShaped(bs: seq<Option<Binding>>)
    requires forall i :: 0 <= i < |bs| && bs[i].Some? ==> Shaped(bs[i].value)
    ensures forall k :: k in Apply(bs) ==> Shaped(Binding(k, Apply(bs)[k]))
    decreases |bs|
  {
    if bs != [] {
      var n := |bs| - 1;
      assert forall i :: 0 <= i < n ==> bs[..n][i] == bs[i];
      ApplyShaped(bs[..n]);
    }
  }

  /** A key is stored iff some line binds it, and the line that supplies
      its value is the last such line. */
  lemma ParseLinesLastWins(lines: seq<string>, k: string)
    ensures k in Apply(ParseLines(lines)) <==> exists i :: 0 <= i < |lines| && BindsKey(ParseLine(lines[i]), k)
    ensures k in Apply(ParseLines(lines)) ==>
      (exists i :: 0 <= i < |lines| && ParseLine(lines[i]) == Some(Binding(k, Apply(ParseLines(lines))[k])) &&
        forall j :: i < j < |lines| ==> !BindsKey(ParseLine(lines[j]), k))
  {
    var bs := ParseLines(lines);
    ApplyLastWins(bs, k);
    if exists i :: 0 <= i < |lines| && BindsKey(ParseLine(lines[i]), k) {
      var i :| 0 <= i < |lines| && BindsKey(ParseLine(lines[i]), k);
      assert BindsKey(bs[i], k);
    }
    if k in Apply(bs) {
      var i :| 0 <= i < |bs| && bs[i] == Some(Binding(k, Apply(bs)[k])) &&
        forall j :: i < j < |bs| ==> !BindsKey(bs[j], k);
      assert ParseLine(lines[i]) == bs[i];
      forall j | i < j < |lines| ensures !BindsKey(ParseLine(lines[j]), k) {
        assert ParseLine(lines[j]) == bs[j];
      }
    }
  }

  /** The same, for the lines of a file. */
  lemma ParseEnvLastWins(content: string, k: string)
    ensures var lines := Split(content, '\n');
      k in ParseEnv(content) <==> exists i :: 0 <= i < |lines| && BindsKey(ParseLine(lines[i]), k)
    ensures var lines := Split(content, '\n');
      k in ParseEnv(content) ==>
        (exists i :: 0 <= i < |lines| && ParseLine(lines[i]) == Some(Binding(k, ParseEnv(content)[k])) &&
          forall j :: i < j < |lines| ==> !BindsKey(ParseLine(lines[j]), k))
  {
    ParseLinesLastWins(Split(content, '\n'), k);
  }

  // ---------------------------------------------------------------------
  // Value and Load

  /** Go's `config.Value`: the stored value when non-empty, otherwise the
      fallback. */
  function Value(config: map<string, string>, key: string, fallback: string): (r: string)
    ensures Lookup(config, key) != "" ==> r == config[key]
    ensures Lookup(config, key) == "" ==> r == fallback
  {
    if Lookup(config, key) != "" then config[key] else fallback
  }

  /** A missing key and an empty value give the same answer; a non-empty
      fallback always yields a non-empty value. */
  lemma ValueMissingIsEmpty(config: map<string, string>, key: string, fallback: string)
    ensures Value(config - {key}, key, fallback) == Value(config[key := ""], key, fallback) == fallback
    ensures fallback != "" ==> Value(config, key, fallback) != ""
  {
  }

  /** The state of the env file at the resolved path. */
  datatype EnvFile = Missing | Unreadable(reason: string) | Contents(text: string)

  /** The seven names `Load` takes from the environment. */
  const OverrideKeys: seq<string> :=
    ["SERVER", "USERNAME", "PASSWORD", "SSL", "SMTP_SERVER", "SMTP_PORT", "FROM_EMAIL"]

  predicate Overrides(keys: seq<string>, env: map<string, string>, k: string) {
    k in keys && Lookup(env, k) != ""
  }

  /** The environment loop: each listed name with a non-empty environment
      value replaces the file's entry; nothing else changes. */
  function Overlay(m: map<string, string>, env: map<string, string>, keys: seq<string>): (r: map<string, string>)
    ensures forall k :: k in r <==> k in m || Overrides(keys, env, k)
    ensures forall k :: k in r ==> r[k] == (if Overrides(keys, env, k) then env[k] else m[k])
    decreases |keys|
  {
    if keys == [] then m
    else
      var k := keys[0];
      var m' := if Lookup(env, k) != "" then m[k := env[k]] else m;
      Overlay(m', env, keys[1..])
  }

  /** The entries the file contributes: none when no path is given or the
      file is missing or unreadable. */
  function FileEntries(envPath: string, file: EnvFile): map<string, string> {
    if envPath != "" && file.Contents? then ParseEnv(file.text) else map[]
  }

  /** `Load` with the list of environment names as a parameter: a missing
      file is not an error, and a non-empty environment value wins for the
      listed names only. */
  function LoadWith(keys: seq<string>, envPath: string, file: EnvFile, env: map<string, string>): (r: Result<map<string, string>>)
    ensures r.Failure? <==> envPath != "" && file.Unreadable?
    ensures r.Failure? ==> r.error == "failed to read env file: " + file.reason
    ensures r.Success? ==> forall k :: k in r.value <==>
      k in FileEntries(envPath, file) || Overrides(keys, env, k)
    ensures r.Success? ==> forall k :: k in r.value ==>
      r.value[k] == (if Overrides(keys, env, k) then env[k] else FileEntries(envPath, file)[k])
    ensures r.Success? && file.Missing? ==> forall k :: k in r.value ==>
      Overrides(keys, env, k) && r.value[k] == env[k]
  {
    if envPath != "" && file.Unreadable? then Failure("failed to read env file: " + file.reason)
    else
      var f := FileEntries(envPath, file);
      assert file.Missing? ==> f == map[];
      Success(Overlay(f, env, keys))
  }

  /** Two name lists that agree on whether they hold `k` load the same
      entry for `k`. */
  lemma LoadWithSameEntry(keys1: seq<string>, keys2: seq<string>, envPath: string, file: EnvFile,
                          env: map<string, string>, k: string)
    requires k in keys1 <==> k in keys2
    ensures LoadWith(keys1, envPath, file, env).Success? <==> LoadWith(keys2, envPath, file, env).Success?
    ensures LoadWith(keys1, envPath, file, env).Success? ==>
      var a, b := LoadWith(keys1, envPath, file, env).value, LoadWith(keys2, envPath, file, env).value;
      (k in a <==> k in b) && (k in a ==> a[k] == b[k])
  {
  }

  /** A name outside the list keeps the file's entry, whatever the
      environment holds. */
  lemma LoadWithUnlisted(keys: seq<string>, envPath: string, file: EnvFile, env: map<string, string>, k: string)
    requires k !in keys
    ensures LoadWith(keys, envPath, file, env).Success? ==>
      var a := LoadWith(keys, envPath, file, env).value;
      (k in a <==> k in FileEntries(envPath, file)) && (k in a ==> a[k] == FileEntries(envPath, file)[k])
  {
  }

  /** Go's `config.Load`: `LoadWith` over the seven names. */
  function Load(envPath: string, file: EnvFile, env: map<string, string>): (r: Result<map<string, string>>)
    ensures r.Failure? <==> envPath != "" && file.Unreadable?
    ensures r.Failure? ==> r.error == "failed to read env file: " + file.reason
  {
    LoadWith(OverrideKeys, envPath, file, env)
  }

  /** What `Load` stores under one name: the environment's value when the
      name is one of the seven and set, otherwise the file's entry; with no
      file, only set names among the seven are stored. */
  lemma LoadEntry(envPath: string, file: EnvFile, env: map<string, string>, k: string)
    requires Load(envPath, file, env).Success?
    ensures var m := Load(envPath, file, env).value;
      && (k in m <==> k in FileEntries(envPath, file) || Overrides(OverrideKeys, env, k))
      && (k in m ==> m[k] == (if Overrides(OverrideKeys, env, k) then env[k] else FileEntries(envPath, file)[k]))
      && (file.Missing? && k in m ==> Overrides(OverrideKeys, env, k) && m[k] == env[k])
  {
  }
}
