/** The `.env` file: reading it as a dictionary, and merging updates into it line by line. */
module EnvFile {
  import opened Prelude
  import opened Strings

  /** The first `=` of a line that has one. */
  function EqualSign(line: string): (i: nat)
    requires Has(line, '=')
    ensures i < |line| && line[i] == '=' && forall j :: 0 <= j < i ==> line[j] != '='
  {
    if line[0] == '=' then 0 else 1 + EqualSign(line[1..])
  }

  function Join(lines: seq<string>): string {
    if |lines| == 0 then ""
    else if |lines| == 1 then lines[0]
    else Join(lines[..|lines| - 1]) + "\n" + lines[|lines| - 1]
  }

  // ---------- Parsing ----------

  type Env = map<string, string>

  datatype Entry = Entry(key: string, value: string)

  /** Whether a stripped line can hold an entry at all. */
  predicate MayHold(line: string) {
    line != "" && line[0] != '#' && Has(line, '=')
  }

  function KeyOf(line: string): string
    requires MayHold(line)
  {
    Strip(line[..EqualSign(line)])
  }

  function EntryOf(raw: string): Option<Entry> {
    var line := Strip(raw);
    if !MayHold(line) || KeyOf(line) == "" then None
    else Some(Entry(KeyOf(line), line[EqualSign(line) + 1..]))
  }

  function ParseLines(lines: seq<string>): Env {
    if |lines| == 0 then map[]
    else Put(ParseLines(lines[..|lines| - 1]), EntryOf(lines[|lines| - 1]))
  }

  function Put(env: Env, entry: Option<Entry>): Env {
    if entry.Some? then env[entry.value.key := entry.value.value] else env
  }

  method Parse(text: string) returns (env: Env)
    ensures env == ParseLines(SplitLines(text))
  {
    var lines := SplitLines(text);
    env := map[];
    for i := 0 to |lines|
      invariant env == ParseLines(lines[..i])
    {
      ParseOneMore(lines[..i], lines[i]);
      assert lines[..i + 1] == lines[..i] + [lines[i]];
      var line := Strip(lines[i]);
      if line == "" || line[0] == '#' || !Has(line, '=') {
        continue;
      }
      var key := Strip(line[..EqualSign(line)]);
      if key == "" {
        continue;
      }
      env := env[key := line[EqualSign(line) + 1..]];
    }
    assert lines[..|lines|] == lines;
  }

  // ---------- Merging ----------

  /** A Python dictionary keeps its keys in order, each once. */
  type Updates = u: seq<Entry> | Distinct(u) witness []

  predicate Distinct(u: seq<Entry>) {
    forall i, j :: 0 <= i < j < |u| ==> u[i].key != u[j].key
  }

  function AsEnv(u: seq<Entry>): Env {
    if |u| == 0 then map[] else AsEnv(u[..|u| - 1])[u[|u| - 1].key := u[|u| - 1].value]
  }

  function Written(entry: Entry): string {
    entry.key + "=" + entry.value
  }

  /** The key a line would be replaced for. */
  function LineKey(raw: string): Option<string> {
    if MayHold(Strip(raw)) then Some(KeyOf(Strip(raw))) else None
  }

  function Rewrite(raw: string, env: Env): string {
    var key := LineKey(raw);
    if key.Some? && key.value in env then Written(Entry(key.value, env[key.value])) else raw
  }

  function RewriteAll(lines: seq<string>, env: Env): seq<string> {
    seq(|lines|, i requires 0 <= i < |lines| => Rewrite(lines[i], env))
  }

  function SeenIn(lines: seq<string>, env: Env): set<string> {
    set i | 0 <= i < |lines| && LineKey(lines[i]).Some? && LineKey(lines[i]).value in env :: LineKey(lines[i]).value
  }

  function Unseen(u: seq<Entry>, seen: set<string>): seq<Entry> {
    if |u| == 0 then []
    else if u[|u| - 1].key in seen then Unseen(u[..|u| - 1], seen)
    else Unseen(u[..|u| - 1], seen) + [u[|u| - 1]]
  }

  function WriteAll(u: seq<Entry>): seq<string> {
    seq(|u|, i requires 0 <= i < |u| => Written(u[i]))
  }

  /** Existing lines rewritten in place; then, if there are new keys, a blank line and theirs. */
  function Merged(lines: seq<string>, u: Updates): seq<string> {
    var added := Unseen(u, SeenIn(lines, AsEnv(u)));
    RewriteAll(lines, AsEnv(u)) + (if added == [] then [] else [""] + WriteAll(added))
  }

  method IterMerged(text: string, u: Updates) returns (merged: seq<string>)
    ensures merged == Merged(SplitLines(text), u)
  {
    var lines, env := SplitLines(text), AsEnv(u);
    var seen := {};
    merged := [];
    for i := 0 to |lines|
      invariant merged == RewriteAll(lines[..i], env)
      invariant seen == SeenIn(lines[..i], env)
    {
      var stripped := Strip(lines[i]);
      SeenInOneMore(lines[..i], lines[i], env);
      RewriteOneMore(lines[..i], lines[i], env);
      assert lines[..i + 1] == lines[..i] + [lines[i]];
      if stripped == "" || stripped[0] == '#' || !Has(stripped, '=') {
        merged := merged + [lines[i]];
        continue;
      }
      var key := Strip(stripped[..EqualSign(stripped)]);
      if key in env {
        merged := merged + [key + "=" + env[key]];
        seen := seen + {key};
      } else {
        merged := merged + [lines[i]];
      }
    }
    assert lines[..|lines|] == lines;
    var added: seq<Entry> := [];
    for i := 0 to |u|
      invariant added == Unseen(u[..i], seen)
    {
      assert u[..i + 1][..i] == u[..i];
      if u[i].key !in seen {
        added := added + [u[i]];
      }
    }
    assert u[..|u|] == u;
    if added != [] {
      merged := merged + [""];
      for i := 0 to |added|
        invariant merged == RewriteAll(lines, env) + ([""] + WriteAll(added[..i]))
      {
        assert WriteAll(added[..i + 1]) == WriteAll(added[..i]) + [Written(added[i])];
        merged := merged + [added[i].key + "=" + added[i].value];
      }
      assert added[..|added|] == added;
    }
  }

  lemma {:induction false} SeenInOneMore(lines: seq<string>, line: string, env: Env)
    ensures SeenIn(lines + [line], env)
         == SeenIn(lines, env)
            + (if LineKey(line).Some? && LineKey(line).value in env then {LineKey(line).value} else {})
  {
    var more := lines + [line];
    assert forall i :: 0 <= i < |lines| ==> more[i] == lines[i];
    assert more[|lines|] == line;
  }

  /** The file's new text. */
  function Body(lines: seq<string>): string {
    var body := Join(lines);
    if body != "" && body[|body| - 1] == '\n' then body else body + "\n"
  }

  function Write(text: string, u: Updates): string {
    Body(Merged(SplitLines(text), u))
  }

  function Read(text: string): Env {
    ParseLines(SplitLines(text))
  }

  // ---------- Lines ----------

  lemma {:induction false} TerminatedOneMore(lines: seq<string>, line: string)
    ensures Terminated(lines + [line]) == Terminated(lines) + line + "\n"
  {
    if |lines| == 0 {
      assert (lines + [line])[1..] == [];
    } else {
      assert (lines + [line])[1..] == lines[1..] + [line];
      TerminatedOneMore(lines[1..], line);
    }
  }

  lemma {:induction false} JoinTerminates(lines: seq<string>)
    requires |lines| > 0
    ensures Join(lines) + "\n" == Terminated(lines)
  {
    var before, last := lines[..|lines| - 1], lines[|lines| - 1];
    assert lines == before + [last];
    TerminatedOneMore(before, last);
    if |lines| > 1 {
      JoinTerminates(before);
    }
  }

  /** The lines the written text is read back as: a last blank one is lost. */
  function BodyLines(lines: seq<string>): seq<string> {
    if |lines| == 0 then [""]
    else if |lines| > 1 && lines[|lines| - 1] == "" then lines[..|lines| - 1]
    else lines
  }

  lemma {:induction false} JoinEndsWith(lines: seq<string>)
    requires |lines| > 0 && lines[|lines| - 1] != ""
    ensures var last := lines[|lines| - 1]; Join(lines) != "" && Join(lines)[|Join(lines)| - 1] == last[|last| - 1]
  {
  }

  lemma {:induction false} BodyIsTerminated(lines: seq<string>)
    requires OneLineEach(lines)
    ensures Body(lines) == Terminated(BodyLines(lines))
  {
    if |lines| == 0 {
      assert Body(lines) == "\n" == Terminated([""]);
    } else if lines[|lines| - 1] != "" {
      JoinEndsWith(lines);
      JoinTerminates(lines);
    } else if |lines| == 1 {
      JoinTerminates(lines);
    } else {
      var before := lines[..|lines| - 1];
      JoinTerminates(before);
      assert Join(lines) == Join(before) + "\n";
    }
  }

  lemma {:induction false} SplitBody(lines: seq<string>)
    requires OneLineEach(lines)
    ensures SplitLines(Body(lines)) == BodyLines(lines)
  {
    BodyIsTerminated(lines);
    SplitTerminated(BodyLines(lines));
  }

  // ---------- Entries ----------

  /** What survives being written and read back. */
  predicate WellFormed(entry: Entry) {
    && entry.key != "" && Strip(entry.key) == entry.key && entry.key[0] != '#' && !Has(entry.key, '=')
    && OneLine(entry.key) && OneLine(entry.value) && RStrip(entry.value, IsSpace) == entry.value
  }

  lemma {:induction false} WrittenIsRead(entry: Entry)
    requires WellFormed(entry)
    ensures EntryOf(Written(entry)) == Some(entry) && OneLine(Written(entry))
  {
    var line := Written(entry);
    StripIsTrimmed(entry.key, IsSpace);
    RStripIsPrefix(entry.value, IsSpace);
    assert line[0] == entry.key[0] && line[|entry.key|] == '=';
    assert entry.value != "" ==> line[|line| - 1] == entry.value[|entry.value| - 1];
    TrimmedIsStripped(line, IsSpace);
    assert forall j :: 0 <= j < |entry.key| ==> line[j] == entry.key[j];
    assert EqualSign(line) == |entry.key|;
    assert line[..|entry.key|] == entry.key && line[|entry.key| + 1..] == entry.value;
  }

  lemma {:induction false} KeyIsWellFormed(line: string)
    requires MayHold(line) && OneLine(line) && !IsSpace(line[0]) && KeyOf(line) != ""
    ensures var key := KeyOf(line); Strip(key) == key && key[0] != '#' && !Has(key, '=') && OneLine(key)
  {
    var prefix := line[..EqualSign(line)];
    StripIsTrimmed(prefix, IsSpace);
    StripStaysIn(prefix, IsSpace);
    TrimmedIsStripped(Strip(prefix), IsSpace);
    assert OneLine(prefix) && !Has(prefix, '=');
    if prefix != "" {
      StripKeepsFirst(prefix, IsSpace);
    }
  }

  lemma {:induction false} ReadIsWellFormed(raw: string)
    requires OneLine(raw) && EntryOf(raw).Some?
    ensures WellFormed(EntryOf(raw).value)
  {
    var line := Strip(raw);
    StripIsTrimmed(raw, IsSpace);
    StripStaysIn(raw, IsSpace);
    var n := EqualSign(line);
    KeyIsWellFormed(line);
    var value := line[n + 1..];
    assert forall i :: 0 <= i < |value| ==> value[i] == line[n + 1 + i];
    assert OneLine(value);
  }

  lemma {:induction false} ParsedIsWellFormed(lines: seq<string>, key: string)
    requires OneLineEach(lines) && key in ParseLines(lines)
    ensures WellFormed(Entry(key, ParseLines(lines)[key]))
  {
    var before, last := lines[..|lines| - 1], lines[|lines| - 1];
    if EntryOf(last).Some? && EntryOf(last).value.key == key {
      ReadIsWellFormed(last);
    } else {
      ParsedIsWellFormed(before, key);
    }
  }

  ghost predicate AllWellFormed(u: seq<Entry>) {
    forall i :: 0 <= i < |u| ==> WellFormed(u[i])
  }

  lemma {:induction false} AsEnvHas(u: seq<Entry>, i: nat)
    requires Distinct(u) && i < |u|
    ensures u[i].key in AsEnv(u) && AsEnv(u)[u[i].key] == u[i].value
  {
    if i < |u| - 1 {
      AsEnvHas(u[..|u| - 1], i);
    }
  }

  lemma {:induction false} AsEnvOnly(u: seq<Entry>, key: string)
    requires key in AsEnv(u)
    ensures Entry(key, AsEnv(u)[key]) in u
  {
    if u[|u| - 1].key != key {
      AsEnvOnly(u[..|u| - 1], key);
    }
  }

  // ---------- The merge ----------

  ghost predicate GoodEnv(env: Env) {
    forall key :: key in env ==> WellFormed(Entry(key, env[key]))
  }

  function Overridden(env: Env, over: Env): Env {
    map key | key in env :: if key in over then over[key] else env[key]
  }

  lemma {:induction false} FrontAndLast<T>(s: seq<T>)
    requires |s| > 0
    ensures s[..|s| - 1] + [s[|s| - 1]] == s
  {
  }

  lemma {:induction false} ParseOneMore(lines: seq<string>, raw: string)
    ensures ParseLines(lines + [raw]) == Put(ParseLines(lines), EntryOf(raw))
  {
    assert (lines + [raw])[..|lines|] == lines;
  }

  function EntryUnder(entry: Option<Entry>, env: Env): Option<Entry> {
    if entry.Some? && entry.value.key in env then Some(Entry(entry.value.key, env[entry.value.key])) else entry
  }

  lemma {:induction false} RewriteReads(raw: string, env: Env)
    requires GoodEnv(env)
    ensures EntryOf(Rewrite(raw, env)) == EntryUnder(EntryOf(raw), env)
    ensures (LineKey(raw).Some? && LineKey(raw).value in env) <==> (EntryOf(raw).Some? && EntryOf(raw).value.key in env)
  {
    var key := LineKey(raw);
    if key.Some? && key.value in env {
      assert WellFormed(Entry(key.value, env[key.value]));
      WrittenIsRead(Entry(key.value, env[key.value]));
    }
  }

  lemma {:induction false} PutUnder(env: Env, entry: Option<Entry>, over: Env)
    ensures Overridden(Put(env, entry), over) == Put(Overridden(env, over), EntryUnder(entry, over))
  {
  }

  lemma {:induction false} RewriteOneMore(lines: seq<string>, raw: string, env: Env)
    ensures RewriteAll(lines + [raw], env) == RewriteAll(lines, env) + [Rewrite(raw, env)]
  {
  }

  lemma {:induction false} RewrittenParsesOneMore(lines: seq<string>, raw: string, env: Env)
    requires GoodEnv(env) && ParseLines(RewriteAll(lines, env)) == Overridden(ParseLines(lines), env)
    ensures ParseLines(RewriteAll(lines + [raw], env)) == Overridden(ParseLines(lines + [raw]), env)
  {
    RewriteOneMore(lines, raw, env);
    ParseOneMore(RewriteAll(lines, env), Rewrite(raw, env));
    ParseOneMore(lines, raw);
    RewriteReads(raw, env);
    PutUnder(ParseLines(lines), EntryOf(raw), env);
  }

  lemma {:induction false} RewrittenParses(lines: seq<string>, env: Env)
    requires GoodEnv(env)
    ensures ParseLines(RewriteAll(lines, env)) == Overridden(ParseLines(lines), env)
  {
    if |lines| > 0 {
      var before, last := lines[..|lines| - 1], lines[|lines| - 1];
      RewrittenParses(before, env);
      RewrittenParsesOneMore(before, last, env);
      FrontAndLast(lines);
    }
  }

  lemma {:induction false} SeenAreOld(lines: seq<string>, env: Env)
    requires GoodEnv(env)
    ensures SeenIn(lines, env) == ParseLines(lines).Keys * env.Keys
  {
    if |lines| > 0 {
      var before, last := lines[..|lines| - 1], lines[|lines| - 1];
      SeenAreOld(before, env);
      FrontAndLast(lines);
      SeenInOneMore(before, last, env);
      RewriteReads(last, env);
    }
  }

  lemma {:induction false} PutOnTop(env: Env, top: Env, entry: Entry)
    ensures Put(env + top, Some(entry)) == env + top[entry.key := entry.value]
  {
  }

  lemma {:induction false} AsEnvOneMore(u: seq<Entry>, entry: Entry)
    ensures AsEnv(u + [entry]) == AsEnv(u)[entry.key := entry.value]
  {
    assert (u + [entry])[..|u|] == u;
  }

  lemma {:induction false} AppendedParsesOneMore(lines: seq<string>, u: seq<Entry>, entry: Entry)
    requires WellFormed(entry) && ParseLines(lines + WriteAll(u)) == ParseLines(lines) + AsEnv(u)
    ensures ParseLines(lines + WriteAll(u + [entry])) == ParseLines(lines) + AsEnv(u + [entry])
  {
    WrittenIsRead(entry);
    AsEnvOneMore(u, entry);
    assert lines + WriteAll(u + [entry]) == (lines + WriteAll(u)) + [Written(entry)];
    ParseOneMore(lines + WriteAll(u), Written(entry));
    PutOnTop(ParseLines(lines), AsEnv(u), entry);
  }

  lemma {:induction false} AppendedParses(lines: seq<string>, u: seq<Entry>)
    requires AllWellFormed(u)
    ensures ParseLines(lines + WriteAll(u)) == ParseLines(lines) + AsEnv(u)
  {
    if |u| == 0 {
      assert lines + WriteAll(u) == lines;
    } else {
      var before, last := u[..|u| - 1], u[|u| - 1];
      AppendedParses(lines, before);
      AppendedParsesOneMore(lines, before, last);
      FrontAndLast(u);
    }
  }

  lemma {:induction false} UnseenIsRest(u: seq<Entry>, seen: set<string>)
    ensures AsEnv(Unseen(u, seen)) == AsEnv(u) - seen
  {
    if |u| > 0 {
      UnseenIsRest(u[..|u| - 1], seen);
      AsEnvOneMore(Unseen(u[..|u| - 1], seen), u[|u| - 1]);
    }
  }

  lemma {:induction false} UnseenAreGood(u: seq<Entry>, seen: set<string>)
    requires AllWellFormed(u)
    ensures AllWellFormed(Unseen(u, seen))
  {
    if |u| > 0 {
      UnseenAreGood(u[..|u| - 1], seen);
    }
  }

  lemma {:induction false} OverrideInTwoSteps(env: Env, over: Env)
    ensures Overridden(env, over) + (over - env.Keys * over.Keys) == env + over
  {
  }

  lemma {:induction false} GoodUpdates(u: seq<Entry>)
    requires AllWellFormed(u)
    ensures GoodEnv(AsEnv(u))
  {
    forall key | key in AsEnv(u)
      ensures WellFormed(Entry(key, AsEnv(u)[key]))
    {
      AsEnvOnly(u, key);
    }
  }

  lemma {:induction false} AddedParses(kept: seq<string>, added: seq<Entry>)
    requires AllWellFormed(added)
    ensures ParseLines(kept + ([""] + WriteAll(added))) == ParseLines(kept) + AsEnv(added)
  {
    assert kept + ([""] + WriteAll(added)) == (kept + [""]) + WriteAll(added);
    AppendedParses(kept + [""], added);
    ParseOneMore(kept, "");
  }

  lemma {:induction false} MergedParses(lines: seq<string>, u: Updates)
    requires AllWellFormed(u)
    ensures ParseLines(Merged(lines, u)) == ParseLines(lines) + AsEnv(u)
  {
    var env := AsEnv(u);
    var kept, added := RewriteAll(lines, env), Unseen(u, SeenIn(lines, env));
    GoodUpdates(u);
    RewrittenParses(lines, env);
    SeenAreOld(lines, env);
    UnseenIsRest(u, SeenIn(lines, env));
    UnseenAreGood(u, SeenIn(lines, env));
    OverrideInTwoSteps(ParseLines(lines), env);
    if added == [] {
      assert Merged(lines, u) == kept;
    } else {
      AddedParses(kept, added);
    }
  }

  lemma {:induction false} MergedIsOneLineEach(lines: seq<string>, u: Updates)
    requires OneLineEach(lines) && AllWellFormed(u)
    ensures OneLineEach(Merged(lines, u))
  {
    var env := AsEnv(u);
    GoodUpdates(u);
    UnseenAreGood(u, SeenIn(lines, env));
    var added := Unseen(u, SeenIn(lines, env));
    forall i | 0 <= i < |lines|
      ensures OneLine(RewriteAll(lines, env)[i])
    {
      var key := LineKey(lines[i]);
      if key.Some? && key.value in env {
        WrittenIsRead(Entry(key.value, env[key.value]));
      }
    }
    forall i | 0 <= i < |added|
      ensures OneLine(WriteAll(added)[i])
    {
      WrittenIsRead(added[i]);
    }
  }

  lemma {:induction false} BlankEndIsNothing(lines: seq<string>)
    ensures ParseLines(BodyLines(lines)) == ParseLines(lines)
  {
  }

  // ---------- Main results ----------

  /** The merge law: reading what was written gives the old contents overridden by well-formed updates. */
  lemma {:induction false} MergeLaw(text: string, u: Updates)
    requires AllWellFormed(u)
    ensures Read(Write(text, u)) == Read(text) + AsEnv(u)
  {
    LinesAreOneLine(text);
    MergedIsOneLineEach(SplitLines(text), u);
    SplitBody(Merged(SplitLines(text), u));
    BlankEndIsNothing(Merged(SplitLines(text), u));
    MergedParses(SplitLines(text), u);
  }

  /** And for no others: a key or value that is not well formed never reads back. */
  lemma {:induction false} MergeLawIsExact(text: string, u: Updates)
    ensures Read(Write(text, u)) == Read(text) + AsEnv(u) <==> AllWellFormed(u)
  {
    if AllWellFormed(u) {
      MergeLaw(text, u);
    }
    if Read(Write(text, u)) == Read(text) + AsEnv(u) {
      LinesAreOneLine(Write(text, u));
      forall i | 0 <= i < |u|
        ensures WellFormed(u[i])
      {
        AsEnvHas(u, i);
        ParsedIsWellFormed(SplitLines(Write(text, u)), u[i].key);
      }
    }
  }

  /** Successive writes compose as map override. */
  lemma {:induction false} WritesCompose(text: string, u: Updates, v: Updates)
    requires AllWellFormed(u) && AllWellFormed(v)
    ensures Read(Write(Write(text, u), v)) == Read(text) + (AsEnv(u) + AsEnv(v))
  {
    MergeLaw(text, u);
    MergeLaw(Write(text, u), v);
  }

  lemma {:induction false} MergedKeepsPlaces(lines: seq<string>, u: Updates, i: nat)
    requires i < |lines|
    ensures var after := BodyLines(Merged(lines, u));
            && (i < |after| ==> after[i] == Rewrite(lines[i], AsEnv(u)))
            && (i >= |after| ==> i == |lines| - 1 && Rewrite(lines[i], AsEnv(u)) == "")
  {
    var merged := Merged(lines, u);
    assert merged[i] == RewriteAll(lines, AsEnv(u))[i] == Rewrite(lines[i], AsEnv(u));
  }

  /** A line that holds no updated key keeps its text and its place; only a blank last line can be lost. */
  lemma {:induction false} OtherLinesStay(text: string, u: Updates, i: nat)
    requires AllWellFormed(u) && i < |SplitLines(text)|
    ensures var before, after := SplitLines(text), SplitLines(Write(text, u));
            && (i < |after| || (i == |before| - 1 && before[i] == ""))
            && (i < |after| ==>
                  if LineKey(before[i]).Some? && LineKey(before[i]).value in AsEnv(u)
                  then EntryOf(after[i]) == Some(Entry(LineKey(before[i]).value, AsEnv(u)[LineKey(before[i]).value]))
                  else after[i] == before[i])
  {
    var before := SplitLines(text);
    LinesAreOneLine(text);
    MergedIsOneLineEach(before, u);
    SplitBody(Merged(before, u));
    MergedKeepsPlaces(before, u, i);
    GoodUpdates(u);
    var key := LineKey(before[i]);
    if key.Some? && key.value in AsEnv(u) {
      WrittenIsRead(Entry(key.value, AsEnv(u)[key.value]));
    }
  }
}
