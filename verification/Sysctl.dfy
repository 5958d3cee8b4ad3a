/** The sysctl resource: converge live values, then render the drop-in file. */
module Sysctl {
  import opened Numbers
  import opened Text
  import opened Sorting
  import opened ProcSys
  import opened Engine
  import opened HostState
  import Sequences

  /** Runs of white space collapse to one blank. */
  function Normalize(s: string): string { Join(Fields(s), " ") }

  /** Two values compare equal exactly when they have the same fields. */
  lemma NormalizeIff(a: string, b: string)
    ensures Normalize(a) == Normalize(b) <==> Fields(a) == Fields(b)
    ensures Normalize(TrimSpace(a)) == Normalize(a)
  {
    FieldsAreWords(a);
    FieldsAreWords(b);
    FieldsJoin(Fields(a));
    FieldsJoin(Fields(b));
    FieldsTrim(a);
  }

  // ---- the drop-in file

  function RenderKeys(keys: seq<string>, settings: map<string, string>): string
    requires forall k :: k in keys ==> k in settings
  {
    if keys == [] then ""
    else keys[0] + " = " + settings[keys[0]] + "\n" + RenderKeys(keys[1..], settings)
  }

  function RenderFile(settings: map<string, string>): string {
    HEADER + "\n" + RenderKeys(InOrder(settings.Keys), settings)
  }

  /** The keys come out of the map in any order; sorting makes the result a function of the map. */
  method SortedKeys(settings: map<string, string>) returns (keys: seq<string>)
    ensures keys == InOrder(settings.Keys)
  {
    var visited: seq<string> := [];
    var remaining := settings.Keys;
    while remaining != {}
      invariant Distinct(visited) && remaining <= settings.Keys
      invariant forall k :: k in visited <==> k in settings.Keys - remaining
      decreases |remaining|
    {
      var k :| k in remaining;
      DistinctConcat(visited, [k]);
      visited := visited + [k];
      remaining := remaining - {k};
    }
    InOrderIsUnique(visited, settings.Keys);
    keys := Sort(LexLe, visited);
  }

  method RenderSysctlFile(settings: map<string, string>) returns (text: string)
    ensures text == RenderFile(settings)
  {
    var keys := SortedKeys(settings);
    var body := RenderAssignments(keys, settings);
    text := HEADER + "\n" + body;
  }

  method RenderAssignments(keys: seq<string>, settings: map<string, string>) returns (body: string)
    requires forall k :: k in keys ==> k in settings
    ensures body == RenderKeys(keys, settings)
  {
    body := "";
    for i := 0 to |keys|
      invariant body == RenderKeys(keys[..i], settings)
    {
      RenderKeysStep(keys, settings, i);
      body := body + (keys[i] + " = " + settings[keys[i]] + "\n");
    }
    assert keys[..|keys|] == keys;
  }

  lemma RenderKeysStep(keys: seq<string>, settings: map<string, string>, i: nat)
    requires i < |keys| && forall k :: k in keys ==> k in settings
    ensures RenderKeys(keys[..i + 1], settings) == RenderKeys(keys[..i], settings) + (keys[i] + " = " + settings[keys[i]] + "\n")
  {
    assert keys[..i + 1] == keys[..i] + [keys[i]];
    RenderKeysAppend(keys[..i], keys[i], settings);
  }

  lemma {:induction false} RenderKeysAppend(keys: seq<string>, last: string, settings: map<string, string>)
    requires last in settings && forall k :: k in keys ==> k in settings
    ensures RenderKeys(keys + [last], settings) == RenderKeys(keys, settings) + (last + " = " + settings[last] + "\n")
  {
    var line := last + " = " + settings[last] + "\n";
    if keys == [] {
      assert keys + [last] == [last] && [last][1..] == [];
      assert RenderKeys([last], settings) == line + "";
    } else {
      assert (keys + [last])[1..] == keys[1..] + [last];
      RenderKeysAppend(keys[1..], last, settings);
      Sequences.Associate(keys[0] + " = " + settings[keys[0]] + "\n", RenderKeys(keys[1..], settings), line);
    }
  }

  /** What a reader of the drop-in file sees: one assignment a line, the key up to the first blank. */
  function DecodeLine(line: string): (string, string) {
    var key := SplitOn(line, Only(' '))[0];
    (key, if |key| + 3 <= |line| then line[|key| + 3..] else "")
  }

  function DecodeLines(lines: seq<string>): map<string, string> {
    if lines == [] then map[]
    else var (key, value) := DecodeLine(lines[0]); DecodeLines(lines[1..])[key := value]
  }

  /** The header line and the empty text after the last newline are not assignments. */
  function DecodeFileLines(lines: seq<string>): map<string, string> {
    if |lines| < 2 then map[] else DecodeLines(lines[1..|lines| - 1])
  }

  function Decode(text: string): map<string, string> { DecodeFileLines(Split(text, '\n')) }

  ghost predicate Encodable(settings: map<string, string>) {
    forall k :: k in settings ==>
      Free(k, Only(' ')) && Free(k, Only('\n')) && Free(settings[k], Only('\n'))
  }

  lemma {:induction false} RenderedLines(keys: seq<string>, settings: map<string, string>)
    requires Encodable(settings) && forall k :: k in keys ==> k in settings
    ensures var lines := Split(RenderKeys(keys, settings), '\n');
      && |lines| == |keys| + 1 && lines[|keys|] == ""
      && forall i :: 0 <= i < |keys| ==> lines[i] == keys[i] + " = " + settings[keys[i]]
  {
    if keys == [] {
    } else {
      var line, rest := keys[0] + " = " + settings[keys[0]], RenderKeys(keys[1..], settings);
      assert keys[0] in keys;
      RenderedLines(keys[1..], settings);
      SplitOnFree(line, Only('\n'));
      SplitOnConcat(line, '\n', rest, Only('\n'));
      assert RenderKeys(keys, settings) == line + ['\n'] + rest;
      forall i | 0 < i < |keys|
        ensures Split(RenderKeys(keys, settings), '\n')[i] == keys[i] + " = " + settings[keys[i]]
      {
        assert keys[i] == keys[1..][i - 1];
      }
    }
  }

  lemma DecodeRendered(key: string, value: string)
    requires Free(key, Only(' '))
    ensures DecodeLine(key + " = " + value) == (key, value)
  {
    SplitOnFree(key, Only(' '));
    SplitOnConcat(key, ' ', "= " + value, Only(' '));
    assert key + " = " + value == key + [' '] + ("= " + value);
  }

  lemma {:induction false} DecodeLinesRendered(keys: seq<string>, settings: map<string, string>, lines: seq<string>)
    requires Encodable(settings) && forall k :: k in keys ==> k in settings
    requires |lines| == |keys| && forall i :: 0 <= i < |keys| ==> lines[i] == keys[i] + " = " + settings[keys[i]]
    ensures DecodeLines(lines) == map k | k in keys :: settings[k]
  {
    if keys != [] {
      assert keys[0] in keys;
      DecodeRendered(keys[0], settings[keys[0]]);
      forall i | 0 <= i < |keys[1..]| ensures lines[1..][i] == keys[1..][i] + " = " + settings[keys[1..][i]] {
        assert keys[1..][i] == keys[i + 1];
      }
      DecodeLinesRendered(keys[1..], settings, lines[1..]);
    }
  }

  lemma HeaderIsOneLine()
    ensures Free(HEADER, Only('\n'))
  {
    FreeParts("# Managed by ", "node-configurator. ", "Local edits will ", "be overwritten.");
  }

  lemma FreeParts(a: string, b: string, c: string, d: string)
    requires Free(a, Only('\n')) && Free(b, Only('\n')) && Free(c, Only('\n')) && Free(d, Only('\n'))
    ensures Free(a + b + c + d, Only('\n'))
  {}

  /** The rendered file says exactly what the settings say. */
  lemma DecodeRender(settings: map<string, string>)
    requires Encodable(settings)
    ensures Decode(RenderFile(settings)) == settings
  {
    HeaderIsOneLine();
    DecodeHeaded(HEADER, settings);
  }

  lemma DecodeHeaded(header: string, settings: map<string, string>)
    requires Encodable(settings) && Free(header, Only('\n'))
    ensures Decode(header + "\n" + RenderKeys(InOrder(settings.Keys), settings)) == settings
  {
    var keys := InOrder(settings.Keys);
    HeadedLines(header, RenderKeys(keys, settings));
    RenderedLines(keys, settings);
    DecodeFileLinesRendered(header, keys, settings, Split(RenderKeys(keys, settings), '\n'));
  }

  lemma DecodeFileLinesRendered(header: string, keys: seq<string>, settings: map<string, string>, lines: seq<string>)
    requires Encodable(settings) && forall k :: k in keys <==> k in settings
    requires |lines| == |keys| + 1 && forall i :: 0 <= i < |keys| ==> lines[i] == keys[i] + " = " + settings[keys[i]]
    ensures DecodeFileLines([header] + lines) == settings
  {
    assert ([header] + lines)[1..|lines|] == lines[..|keys|];
    DecodeLinesRendered(keys, settings, lines[..|keys|]);
    assert (map k | k in keys :: settings[k]) == settings;
  }

  lemma HeadedLines(header: string, body: string)
    requires Free(header, Only('\n'))
    ensures Split(header + "\n" + body, '\n') == [header] + Split(body, '\n')
  {
    SplitOnFree(header, Only('\n'));
    SplitOnConcat(header, '\n', body, Only('\n'));
    assert header + "\n" + body == header + ['\n'] + body;
  }

  /** A rendered file belongs to one map only. */
  lemma RenderInjective(a: map<string, string>, b: map<string, string>)
    requires Encodable(a) && Encodable(b)
    ensures RenderFile(a) == RenderFile(b) <==> a == b
  {
    DecodeRender(a);
    DecodeRender(b);
  }

  lemma InOrderSingle(k: string)
    ensures InOrder({k}) == [k]
  {
    InOrderIsUnique([k], {k});
  }

  /** The drop-in starts with the notice that it is managed. */
  lemma RenderStartsWithNotice(settings: map<string, string>)
    ensures HasPrefix(RenderFile(settings), "# Managed by ")
  {
    assert HEADER == "# Managed by " + ("node-configurator. " + "Local edits will " + "be overwritten.");
  }

  /** With a blank in a key two different maps share a file. */
  lemma BlankInKeyCollides()
    ensures var a, b := map["a = b" := "c"], map["a" := "b = c"];
      a != b && RenderFile(a) == RenderFile(b)
  {
    var a, b := map["a = b" := "c"], map["a" := "b = c"];
    InOrderSingle("a = b");
    InOrderSingle("a");
    assert a.Keys == {"a = b"} && b.Keys == {"a"};
    assert "a = b" !in b;
    assert RenderKeys(["a = b"], a) == "a = b" + " = " + "c" + "\n" + RenderKeys([], a);
    assert RenderKeys(["a"], b) == "a" + " = " + "b = c" + "\n" + RenderKeys([], b);
    assert "a = b" + " = " + "c" + "\n" == "a" + " = " + "b = c" + "\n";
  }

  // ---- live values

  datatype Failure = KeyFailed(key: string) | PersistFailed

  /** `root` is the Env's; an empty `persistFile` disables persistence. */
  datatype SysctlResource = SysctlResource(root: string, settings: map<string, string>, persistFile: string) {

    function PathOf(key: string): string { SysctlPath(root, key) }

    predicate Exists(h: Host, key: string) { PathOf(key) in h.sysctls }

    function ReadSysctl(h: Host, key: string): Option<string> {
      if Exists(h, key) && PathOf(key) !in h.unreadable then Some(TrimSpace(h.sysctls[PathOf(key)])) else None
    }

    function Keys(): (keys: seq<string>)
      ensures forall k :: k in keys <==> k in settings
    {
      InOrder(settings.Keys)
    }

    /** The key needs no write: it reads, and reads back with the wanted fields. */
    predicate UpToDate(h: Host, key: string)
      requires key in settings
    {
      var cur := ReadSysctl(h, key);
      cur.Some? && Normalize(cur.value) == Normalize(settings[key])
    }

    // ---- Check

    predicate Blocked(h: Host, key: string) { Exists(h, key) && ReadSysctl(h, key) == None }

    predicate Drifts(h: Host, key: string)
      requires key in settings
    {
      Exists(h, key) && !UpToDate(h, key)
    }

    /** None when an existing key cannot be read; otherwise the drifted keys, in order. */
    function DriftAmong(h: Host, keys: seq<string>): Option<seq<string>>
      requires forall k :: k in keys ==> k in settings
    {
      if keys == [] then Some([])
      else
        assert keys[0] in keys;
        if Blocked(h, keys[0]) then None
        else Before(if Drifts(h, keys[0]) then [keys[0]] else [], DriftAmong(h, keys[1..]))
    }

    static function Before(found: seq<string>, rest: Option<seq<string>>): Option<seq<string>> {
      if rest.Some? then Some(found + rest.value) else None
    }

    predicate PersistNeeded(h: Host) {
      persistFile != "" && ReadFile(h, persistFile) != Content(RenderFile(settings))
    }

    function Check(h: Host): Checked {
      match DriftAmong(h, Keys())
      case None => Checked(Failed, true)
      case Some(drift) => Checked(if drift == [] && !PersistNeeded(h) then Unchanged else WouldChange, false)
    }

    lemma DriftStep(h: Host, keys: seq<string>, i: nat, found: seq<string>)
      requires i < |keys| && forall k :: k in keys ==> k in settings
      ensures var drift := DriftAmong(h, keys[i..]);
        if Blocked(h, keys[i]) then drift == None
        else Before(found, drift) == Before(found + (if Drifts(h, keys[i]) then [keys[i]] else []), DriftAmong(h, keys[i + 1..]))
    {
      assert keys[i..][0] == keys[i] && keys[i..][1..] == keys[i + 1..];
      var rest := DriftAmong(h, keys[i + 1..]);
      if rest.Some? { Sequences.Associate(found, if Drifts(h, keys[i]) then [keys[i]] else [], rest.value); }
    }

    /** One key of the diff: None when it exists and cannot be read. */
    method DiffKey(node: Node<Host>, key: string) returns (drift: Option<seq<string>>)
      requires key in settings
      ensures drift == if Blocked(node.host, key) then None else Some(if Drifts(node.host, key) then [key] else [])
    {
      if !Exists(node.host, key) { return Some([]); }
      var cur := ReadSysctl(node.host, key);
      if cur == None { return None; }
      drift := Some(if Normalize(cur.value) != Normalize(settings[key]) then [key] else []);
    }

    method DiffLive(node: Node<Host>) returns (drift: Option<seq<string>>)
      ensures drift == DriftAmong(node.host, Keys())
    {
      var keys := SortedKeys(settings);
      drift := DiffKeys(node, keys);
    }

    method DiffKeys(node: Node<Host>, keys: seq<string>) returns (drift: Option<seq<string>>)
      requires forall k :: k in keys ==> k in settings
      ensures drift == DriftAmong(node.host, keys)
    {
      var found: seq<string> := [];
      BeforeNothing(DriftAmong(node.host, keys));
      assert keys[0..] == keys;
      for i := 0 to |keys|
        invariant DriftAmong(node.host, keys) == Before(found, DriftAmong(node.host, keys[i..]))
      {
        DriftStep(node.host, keys, i, found);
        var d := DiffKey(node, keys[i]);
        if d == None { return None; }
        found := found + d.value;
      }
      BeforeNothing(Some(found));
      drift := Some(found);
    }

    static lemma BeforeNothing(drift: Option<seq<string>>)
      ensures Before([], drift) == drift && (drift.Some? ==> Before(drift.value, Some([])) == drift)
    {
      if drift.Some? { assert [] + drift.value == drift.value + [] == drift.value; }
    }

    static lemma BeforeEmpty(found: seq<string>, rest: Option<seq<string>>)
      ensures Before(found, rest) == Some([]) <==> found == [] && rest == Some([])
    {
      if rest.Some? { assert |found + rest.value| == |found| + |rest.value|; }
    }

    method CheckNode(node: Node<Host>) returns (res: Checked)
      ensures res == Check(node.host)
    {
      var drift := DiffLive(node);
      if drift == None { return Checked(Failed, true); }
      var persistDrift := false;
      if persistFile != "" {
        var rendered := RenderSysctlFile(settings);
        persistDrift := ReadFile(node.host, persistFile) != Content(rendered);
      }
      res := Checked(if drift.value == [] && !persistDrift then Unchanged else WouldChange, false);
    }

    // ---- Apply

    /** The host after one key of the sweep; None when its write fails. */
    function AfterKey(k: Kernel, h: Host, key: string): Option<Host>
      requires key in settings
    {
      if !Exists(h, key) || UpToDate(h, key) then Some(h)
      else if PathOf(key) in h.unwritable then None
      else Some(h.(sysctls := h.sysctls[PathOf(key) := k.echo(PathOf(key), settings[key])]))
    }

    function ApplyKeys(k: Kernel, keys: seq<string>, h: Host): (Host, Option<Failure>)
      requires forall key :: key in keys ==> key in settings
      decreases |keys|
    {
      if keys == [] then (h, None)
      else
        match AfterKey(k, h, keys[0])
        case None => (h, Some(KeyFailed(keys[0])))
        case Some(next) => ApplyKeys(k, keys[1..], next)
    }

    function Apply(k: Kernel, h: Host): (Host, Option<Failure>) {
      var (live, failure) := ApplyKeys(k, Keys(), h);
      if failure.Some? || persistFile == "" then (live, failure)
      else
        var written := WriteFile(live, persistFile, RenderFile(settings));
        (written.state, if written.ok then None else Some(PersistFailed))
    }

    method ApplyNode(k: Kernel, node: Node<Host>) returns (failure: Option<Failure>)
      modifies node
      ensures (node.host, failure) == Apply(k, old(node.host))
    {
      var keys := SortedKeys(settings);
      for i := 0 to |keys|
        invariant ApplyKeys(k, keys[i..], node.host) == ApplyKeys(k, keys, old(node.host))
      {
        assert keys[i..][0] == keys[i] && keys[i..][1..] == keys[i + 1..];
        assert keys[i] in keys;
        var ok := ApplyKey(k, node, keys[i]);
        if !ok { return Some(KeyFailed(keys[i])); }
      }
      if persistFile != "" {
        var rendered := RenderSysctlFile(settings);
        var written := WriteFile(node.host, persistFile, rendered);
        node.host := written.state;
        if !written.ok { return Some(PersistFailed); }
      }
      failure := None;
    }

    /** One key of the sweep: left alone when absent or up to date, otherwise written. */
    method ApplyKey(k: Kernel, node: Node<Host>, key: string) returns (ok: bool)
      requires key in settings
      modifies node
      ensures AfterKey(k, old(node.host), key) == if ok then Some(node.host) else None
      ensures !ok ==> node.host == old(node.host)
    {
      if !Exists(node.host, key) { return true; }
      var cur := ReadSysctl(node.host, key);
      if cur.Some? && Normalize(cur.value) == Normalize(settings[key]) { return true; }
      if PathOf(key) in node.host.unwritable { return false; }
      node.host := node.host.(sysctls := node.host.sysctls[PathOf(key) := k.echo(PathOf(key), settings[key])]);
      ok := true;
    }

    // ---- convergence

    /** The live value has the fields of the wanted one. */
    predicate Holds(h: Host, key: string)
      requires key in settings && Exists(h, key)
    {
      Fields(h.sysctls[PathOf(key)]) == Fields(settings[key])
    }

    /** No two existing keys name one file with different values. */
    ghost predicate NoConflict(h: Host) {
      forall a, b :: a in settings && b in settings && PathOf(a) == PathOf(b) && Exists(h, a) ==>
        Fields(settings[a]) == Fields(settings[b])
    }

    lemma UpToDateIff(h: Host, key: string)
      requires key in settings && Exists(h, key)
      ensures UpToDate(h, key) <==> PathOf(key) !in h.unreadable && Holds(h, key)
    {
      NormalizeIff(h.sysctls[PathOf(key)], settings[key]);
    }

    lemma {:induction false} NoneDrifted(h: Host, keys: seq<string>)
      requires forall k :: k in keys ==> k in settings
      ensures DriftAmong(h, keys) == Some([]) <==> forall key :: key in keys ==> !Blocked(h, key) && !Drifts(h, key)
      ensures DriftAmong(h, keys) == None <==> exists key :: key in keys && Blocked(h, key)
    {
      if keys != [] {
        var first, rest := keys[0], keys[1..];
        NoneDrifted(h, rest);
        assert forall key :: key in keys <==> key == first || key in rest;
        BeforeEmpty(if Drifts(h, first) then [first] else [], DriftAmong(h, rest));
      }
    }

    lemma DriftIff(h: Host, keys: seq<string>)
      requires forall k :: k in keys ==> k in settings
      ensures DriftAmong(h, keys) == Some([]) <==>
        forall key :: key in keys && Exists(h, key) ==> PathOf(key) !in h.unreadable && Holds(h, key)
    {
      NoneDrifted(h, keys);
      forall key | key in keys && Exists(h, key)
        ensures !Blocked(h, key) && !Drifts(h, key) <==> PathOf(key) !in h.unreadable && Holds(h, key)
      {
        UpToDateIff(h, key);
      }
    }

    /** A sweep over `keys`, completed or not, changes nothing but the files of those keys. */
    lemma {:induction false} SweepFrame(k: Kernel, keys: seq<string>, h: Host)
      requires forall key :: key in keys ==> key in settings
      ensures var h' := ApplyKeys(k, keys, h).0;
        && h' == h.(sysctls := h'.sysctls) && h'.sysctls.Keys == h.sysctls.Keys
        && (forall p :: p in h.sysctls && (forall key :: key in keys ==> PathOf(key) != p) ==> h'.sysctls[p] == h.sysctls[p])
      decreases |keys|
    {
      if keys != [] {
        assert keys[0] in keys;
        var next := AfterKey(k, h, keys[0]);
        if next.Some? { SweepFrame(k, keys[1..], next.value); }
      }
    }

    /** One of `keys` names the file `p` and its value is what the file holds. */
    ghost predicate SetBy(keys: seq<string>, h: Host, p: string)
      requires p in h.sysctls && forall key :: key in keys ==> key in settings
    {
      exists key :: key in keys && PathOf(key) == p && Fields(h.sysctls[p]) == Fields(settings[key])
    }

    lemma SetByMore(key: string, rest: seq<string>, keys: seq<string>, h: Host, p: string)
      requires keys == [key] + rest && p in h.sysctls && forall x :: x in keys ==> x in settings
      ensures (forall x :: x in rest ==> x in settings) && (SetBy(rest, h, p) ==> SetBy(keys, h, p))
    {
      forall x | x in rest ensures x in settings { assert x in keys; }
      if SetBy(rest, h, p) {
        var x :| x in rest && PathOf(x) == p && Fields(h.sysctls[p]) == Fields(settings[x]);
        assert x in keys;
      }
    }

    /** After a completed sweep the file of each existing key holds the value of one of the keys that name it. */
    lemma {:induction false} SweepSets(k: Kernel, keys: seq<string>, h: Host, p: string)
      requires forall key :: key in keys ==> key in settings
      requires FieldPreserving(k) && p in h.sysctls && ApplyKeys(k, keys, h).1 == None
      ensures var h' := ApplyKeys(k, keys, h).0;
        && p in h'.sysctls
        && (h'.sysctls[p] == h.sysctls[p] || SetBy(keys, h', p))
        && ((exists key :: key in keys && PathOf(key) == p) ==> SetBy(keys, h', p))
      decreases |keys|
    {
      SweepFrame(k, keys, h);
      if keys != [] {
        var key, rest, h' := keys[0], keys[1..], ApplyKeys(k, keys, h).0;
        assert key in keys && keys == [key] + rest;
        var next := AfterKey(k, h, key).value;
        SweepSets(k, rest, next, p);
        SetByMore(key, rest, keys, h', p);
        if PathOf(key) == p {
          UpToDateIff(h, key);
          assert Fields(next.sysctls[p]) == Fields(settings[key]);
        }
      }
    }

    /** A sweep writes no file whose keys are all up to date. */
    lemma {:induction false} UpToDateIsLeftAlone(k: Kernel, keys: seq<string>, h: Host, p: string)
      requires forall key :: key in keys ==> key in settings && (PathOf(key) == p ==> UpToDate(h, key))
      ensures var h' := ApplyKeys(k, keys, h).0; p in h.sysctls ==> p in h'.sysctls && h'.sysctls[p] == h.sysctls[p]
      decreases |keys|
    {
      if keys != [] {
        assert keys[0] in keys;
        var next := AfterKey(k, h, keys[0]);
        if next.Some? { UpToDateIsLeftAlone(k, keys[1..], next.value, p); }
      }
    }

    lemma NoWriteWhenSettled(k: Kernel, keys: seq<string>, h: Host)
      requires forall key :: key in keys ==> key in settings && !Drifts(h, key)
      ensures ApplyKeys(k, keys, h) == (h, None)
      decreases |keys|
    {
      if keys != [] {
        assert keys[0] in keys;
        NoWriteWhenSettled(k, keys[1..], h);
      }
    }

    /** A successful Apply is followed by a clean Check exactly when no two existing keys fight over a file
        (and every existing key can be read at all). */
    lemma ConvergesIff(k: Kernel, h: Host)
      requires FieldPreserving(k) && Apply(k, h).1 == None
      ensures Check(Apply(k, h).0) == Checked(Unchanged, false) <==>
        NoConflict(h) && forall key :: key in settings && Exists(h, key) ==> PathOf(key) !in h.unreadable
    {
      CleanIff(Apply(k, h).0);
      if NoConflict(h) && forall key :: key in settings && Exists(h, key) ==> PathOf(key) !in h.unreadable { CleanAfter(k, h); }
      if Clean(Apply(k, h).0) { CleanMeansNoConflict(k, h); }
    }

    lemma CleanAfter(k: Kernel, h: Host)
      requires FieldPreserving(k) && Apply(k, h).1 == None
      requires NoConflict(h) && forall key :: key in settings && Exists(h, key) ==> PathOf(key) !in h.unreadable
      ensures Clean(Apply(k, h).0)
    {
      ApplyEffect(k, h);
      SweepHolds(k, h);
    }

    lemma CleanMeansNoConflict(k: Kernel, h: Host)
      requires FieldPreserving(k) && Apply(k, h).1 == None && Clean(Apply(k, h).0)
      ensures NoConflict(h) && forall key :: key in settings && Exists(h, key) ==> PathOf(key) !in h.unreadable
    {
      var h' := Apply(k, h).0;
      ApplyEffect(k, h);
      forall a, b | a in settings && b in settings && PathOf(a) == PathOf(b) && Exists(h, a)
        ensures Fields(settings[a]) == Fields(settings[b])
      {
        assert Holds(h', a) && Holds(h', b);
      }
    }

    /** Apply, completed or not, brings no sysctl file and takes none away. */
    lemma ApplyFrame(k: Kernel, h: Host)
      ensures var h' := Apply(k, h).0; h'.sysctls.Keys == h.sysctls.Keys && h'.unreadable == h.unreadable
    {
      SweepFrame(k, Keys(), h);
      WriteFileEffect(ApplyKeys(k, Keys(), h).0, persistFile, RenderFile(settings));
    }

    function Applier(k: Kernel): Host -> Host { (h: Host) => Apply(k, h).0 }

    /** Both keys name one existing file, want different fields of it, and nothing is unreadable. */
    predicate Fight(h: Host, a: string, b: string)
      requires a in settings && b in settings
    {
      && PathOf(a) == PathOf(b) && Exists(h, a) && Fields(settings[a]) != Fields(settings[b])
      && forall key :: key in settings && Exists(h, key) ==> PathOf(key) !in h.unreadable
    }

    lemma FightDrifts(h: Host, a: string, b: string)
      requires a in settings && b in settings && Fight(h, a, b)
      ensures Check(h) == Checked(WouldChange, false)
    {
      NoneDrifted(h, Keys());
      assert !(Holds(h, a) && Holds(h, b));
      CleanIff(h);
    }

    lemma FightGoesOn(k: Kernel, h: Host, a: string, b: string)
      requires a in settings && b in settings && Fight(h, a, b)
      ensures Fight(Apply(k, h).0, a, b)
    {
      ApplyFrame(k, h);
    }

    /** Two keys that fight over an existing file drift for ever: after any number of Applies, whatever the kernel
        does with what is written, Check wants another change. */
    lemma ConflictNeverSettles(k: Kernel, h: Host, a: string, b: string, n: nat)
      requires a in settings && b in settings && Fight(h, a, b)
      ensures Check(Times(Applier(k), h, n)) == Checked(WouldChange, false)
    {
      var step := Applier(k);
      var inv := (x: Host) => Fight(x, a, b);
      forall x | inv(x) ensures inv(step(x)) { FightGoesOn(k, x, a, b); }
      TimesKeep(step, h, n, inv);
      FightDrifts(Times(step, h, n), a, b);
    }

    /** Every existing key reads back as wanted, and the drop-in file is up to date. */
    ghost predicate Clean(h: Host) {
      && (forall key :: key in settings && Exists(h, key) ==> PathOf(key) !in h.unreadable && Holds(h, key))
      && !PersistNeeded(h)
    }

    lemma CleanIff(h: Host)
      ensures Check(h) == Checked(Unchanged, false) <==> Clean(h)
      ensures Clean(h) <==> Check(h).status != WouldChange && !Check(h).err
    {
      DriftIff(h, Keys());
    }

    /** Check fails exactly when some wanted key's file exists and cannot be read. */
    lemma FailedIff(h: Host)
      ensures Check(h) == Checked(Failed, true) <==> exists key :: key in settings && Exists(h, key) && PathOf(key) in h.unreadable
      ensures Check(h).err <==> Check(h).status == Failed
    {
      NoneDrifted(h, Keys());
      if key :| key in settings && Exists(h, key) && PathOf(key) in h.unreadable { assert key in Keys() && Blocked(h, key); }
    }

    /** On a clean host Apply is safe to call: it writes nothing. */
    lemma CleanApplyIsNoop(k: Kernel, h: Host)
      requires Check(h) == Checked(Unchanged, false)
      ensures Apply(k, h) == (h, None)
    {
      NoneDrifted(h, Keys());
      NoWriteWhenSettled(k, Keys(), h);
    }

    /** When the drop-in was rendered from some settings, it is out of date iff those were other settings. */
    lemma PersistNeededIff(h: Host, rendered: map<string, string>)
      requires Encodable(settings) && Encodable(rendered) && persistFile != ""
      requires ReadFile(h, persistFile) == Content(RenderFile(rendered))
      ensures PersistNeeded(h) <==> rendered != settings
    {
      RenderInjective(rendered, settings);
    }

    /** A successful Apply is the completed sweep, with the drop-in file up to date. */
    lemma ApplyEffect(k: Kernel, h: Host)
      requires FieldPreserving(k) && Apply(k, h).1 == None
      ensures var h', live := Apply(k, h).0, ApplyKeys(k, Keys(), h).0;
        && ApplyKeys(k, Keys(), h).1 == None
        && h' == h.(sysctls := live.sysctls, files := h'.files)
        && live.sysctls.Keys == h.sysctls.Keys
        && h'.files == (if persistFile == "" then h.files else h.files[persistFile := RenderFile(settings)])
        && !PersistNeeded(h')
    {
      var live := ApplyKeys(k, Keys(), h).0;
      SweepFrame(k, Keys(), h);
      WriteFileEffect(live, persistFile, RenderFile(settings));
    }

    lemma SweepHolds(k: Kernel, h: Host)
      requires FieldPreserving(k) && ApplyKeys(k, Keys(), h).1 == None && NoConflict(h)
      ensures var h' := ApplyKeys(k, Keys(), h).0;
        forall key :: key in settings && Exists(h, key) ==> Exists(h', key) && Holds(h', key)
    {
      var h' := ApplyKeys(k, Keys(), h).0;
      forall key | key in settings && Exists(h, key) ensures Exists(h', key) && Holds(h', key) {
        assert key in Keys();
        SweepSets(k, Keys(), h, PathOf(key));
        var last :| last in Keys() && PathOf(last) == PathOf(key) && Fields(h'.sysctls[PathOf(key)]) == Fields(settings[last]);
        assert Fields(settings[key]) == Fields(settings[last]);
      }
    }

    /** The keys have pairwise different files. */
    ghost predicate DistinctPaths() {
      forall a, b :: a in settings && b in settings && PathOf(a) == PathOf(b) ==> a == b
    }

    lemma FirstKey(k: Kernel, keys: seq<string>, h: Host)
      requires keys != [] && (forall key :: key in keys ==> key in settings)
      requires keys[0] in keys && AfterKey(k, h, keys[0]).Some?
      ensures ApplyKeys(k, keys, h) == ApplyKeys(k, keys[1..], AfterKey(k, h, keys[0]).value)
    {}

    lemma {:induction false} SweepFailure(k: Kernel, keys: seq<string>, h: Host) returns (i: nat)
      requires forall key :: key in keys ==> key in settings
      requires ApplyKeys(k, keys, h).1.Some?
      ensures var (h', failure) := ApplyKeys(k, keys, h);
        && i < |keys| && failure == Some(KeyFailed(keys[i])) && Exists(h, keys[i]) && PathOf(keys[i]) in h.unwritable
        && h' == ApplyKeys(k, keys[..i], h).0 && ApplyKeys(k, keys[..i], h).1 == None
      decreases |keys|
    {
      var key, rest := keys[0], keys[1..];
      assert key in keys;
      var next := AfterKey(k, h, key);
      if next.None? {
        i := 0;
      } else {
        var j := SweepFailure(k, rest, next.value);
        i := j + 1;
        FirstKey(k, keys[..i], h);
        assert keys[..i][1..] == rest[..j] && keys[..i][0] == key;
      }
    }

    /** The key exists, is not up to date, and cannot be written. */
    predicate Stuck(h: Host, key: string)
      requires key in settings
    {
      Exists(h, key) && !UpToDate(h, key) && PathOf(key) in h.unwritable
    }

    lemma StuckElsewhere(k: Kernel, h: Host, first: string, key: string)
      requires first in settings && key in settings && PathOf(key) != PathOf(first) && AfterKey(k, h, first).Some?
      ensures Stuck(AfterKey(k, h, first).value, key) <==> Stuck(h, key)
    {}

    lemma {:induction false} SweepFailsIff(k: Kernel, keys: seq<string>, h: Host)
      requires forall key :: key in keys ==> key in settings
      requires DistinctPaths() && Distinct(keys)
      ensures ApplyKeys(k, keys, h).1.Some? <==> exists key :: key in keys && Stuck(h, key)
      decreases |keys|
    {
      if keys != [] {
        var first, rest := keys[0], keys[1..];
        assert first in keys && forall key :: key in keys <==> key == first || key in rest;
        var next := AfterKey(k, h, first);
        if next.Some? {
          assert first !in rest;
          SweepFailsIff(k, rest, next.value);
          forall key | key in rest ensures Stuck(next.value, key) <==> Stuck(h, key) { StuckElsewhere(k, h, first, key); }
        }
      }
    }

    lemma {:induction false} FailsOnKey(k: Kernel, keys: seq<string>, h: Host)
      requires forall key :: key in keys ==> key in settings
      ensures ApplyKeys(k, keys, h).1.Some? ==> ApplyKeys(k, keys, h).1.value.KeyFailed?
      decreases |keys|
    {
      if keys != [] {
        assert keys[0] in keys;
        var next := AfterKey(k, h, keys[0]);
        if next.Some? { FailsOnKey(k, keys[1..], next.value); }
      }
    }

    lemma KeyFailure(k: Kernel, h: Host)
      ensures (Apply(k, h).1.Some? && Apply(k, h).1.value.KeyFailed?) <==> ApplyKeys(k, Keys(), h).1.Some?
    {
      FailsOnKey(k, Keys(), h);
    }

    lemma SweepStuckIff(k: Kernel, h: Host)
      requires DistinctPaths()
      ensures ApplyKeys(k, Keys(), h).1.Some? <==> exists key :: key in settings && Stuck(h, key)
    {
      SweepFailsIff(k, Keys(), h);
      assert forall key :: key in settings <==> key in Keys();
    }

    /** With distinct files, Apply fails on a key exactly when some wanted key is stuck. */
    lemma KeyFailsIff(k: Kernel, h: Host)
      requires DistinctPaths()
      ensures (Apply(k, h).1.Some? && Apply(k, h).1.value.KeyFailed?) <==> exists key :: key in settings && Stuck(h, key)
    {
      KeyFailure(k, h);
      SweepStuckIff(k, h);
    }

    /** Otherwise on the drop-in, exactly when that cannot be read, or differs and cannot be written. */
    lemma PersistFailsIff(k: Kernel, h: Host)
      requires DistinctPaths()
      ensures Apply(k, h).1 == Some(PersistFailed) <==>
        && (forall key :: key in settings ==> !Stuck(h, key))
        && persistFile != "" && (persistFile in h.unreadable || (PersistNeeded(h) && persistFile in h.unwritable))
    {
      SweepStuckIff(k, h);
      FailsOnKey(k, Keys(), h);
      var live := ApplyKeys(k, Keys(), h).0;
      SweepFrame(k, Keys(), h);
      assert WriteFile(live, persistFile, RenderFile(settings)).ok <==>
        persistFile !in h.unreadable && (ReadFile(h, persistFile) == Content(RenderFile(settings)) || persistFile !in h.unwritable);
    }

    lemma PrefixHolds(k: Kernel, h: Host, keys: seq<string>)
      requires forall key :: key in keys ==> key in settings
      requires FieldPreserving(k) && DistinctPaths() && ApplyKeys(k, keys, h).1 == None
      ensures var h' := ApplyKeys(k, keys, h).0;
        && h'.files == h.files
        && forall key :: key in keys && Exists(h, key) ==> Exists(h', key) && Holds(h', key)
    {
      var h' := ApplyKeys(k, keys, h).0;
      SweepFrame(k, keys, h);
      forall key | key in keys && Exists(h, key) ensures Exists(h', key) && Holds(h', key) {
        SweepSets(k, keys, h, PathOf(key));
        var last :| last in keys && PathOf(last) == PathOf(key) && Fields(h'.sysctls[PathOf(key)]) == Fields(settings[last]);
        assert last == key;
      }
    }

    lemma SuffixUntouched(k: Kernel, h: Host, keys: seq<string>, key: string)
      requires forall x :: x in keys ==> x in settings
      requires DistinctPaths() && key in settings && key !in keys && Exists(h, key)
      ensures var h' := ApplyKeys(k, keys, h).0;
        Exists(h', key) && h'.sysctls[PathOf(key)] == h.sysctls[PathOf(key)]
    {
      SweepFrame(k, keys, h);
    }

    /** When the write for a key fails: every existing key before it has converged, and it, the later keys and
        every ordinary file are untouched. */
    lemma PartialFailure(k: Kernel, h: Host, failed: string)
      requires FieldPreserving(k) && DistinctPaths()
      requires Apply(k, h).1 == Some(KeyFailed(failed))
      ensures var keys, h' := Keys(), Apply(k, h).0;
        exists i :: 0 <= i < |keys| && keys[i] == failed && PathOf(failed) in h.unwritable
          && (forall j :: 0 <= j < i && Exists(h, keys[j]) ==> Exists(h', keys[j]) && Holds(h', keys[j]))
          && (forall j :: i <= j < |keys| && Exists(h, keys[j]) ==> Exists(h', keys[j]) && h'.sysctls[PathOf(keys[j])] == h.sysctls[PathOf(keys[j])])
          && h'.files == h.files
    {
      var keys, h' := Keys(), Apply(k, h).0;
      var i := SweepFailure(k, keys, h);
      PrefixHolds(k, h, keys[..i]);
      forall j | 0 <= j < i && Exists(h, keys[j]) ensures Exists(h', keys[j]) && Holds(h', keys[j]) {
        assert keys[..i][j] in keys[..i];
      }
      forall j | i <= j < |keys| && Exists(h, keys[j])
        ensures Exists(h', keys[j]) && h'.sysctls[PathOf(keys[j])] == h.sysctls[PathOf(keys[j])]
      {
        assert keys[j] in keys && keys[j] !in keys[..i];
        SuffixUntouched(k, h, keys[..i], keys[j]);
      }
    }
  }

  /** The kernel may re-space a value on read-back, but keeps its fields. */
  ghost predicate FieldPreserving(k: Kernel) {
    forall path, value :: Fields(k.echo(path, value)) == Fields(value)
  }

  /** Proper keys give distinct files. */
  lemma ProperKeysDistinctPaths(r: SysctlResource)
    requires forall key :: key in r.settings ==> ProperKey(key)
    ensures r.DistinctPaths()
  {
    forall a, b | a in r.settings && b in r.settings && r.PathOf(a) == r.PathOf(b) ensures a == b {
      ProperKeysInjective(r.root, a, b);
    }
  }

  /** No number of Applies makes Check report anything but a pending change. */
  ghost predicate NeverSettles(r: SysctlResource, k: Kernel, h: Host) {
    forall n: nat :: r.Check(Times(r.Applier(k), h, n)) == Checked(WouldChange, false)
  }

  /** Two keys with different values. */
  function TwoKeys(root: string, a: string, b: string): SysctlResource { SysctlResource(root, map[a := "0", b := "1"], "") }

  /** Two spellings of one file, wanting different values, on a host that has the file. */
  lemma CollidingKeysNeverSettle(k: Kernel, root: string, h: Host)
    requires SysctlPath(root, "ab") in h.sysctls && h.unreadable == {}
    ensures NeverSettles(TwoKeys(root, "a..b", "ab"), k, h) && NeverSettles(TwoKeys(root, "a/b", "ab"), k, h)
  {
    ImproperKeysCollide(root);
    CollidersNeverSettle(k, root, h, "a..b", "ab");
    CollidersNeverSettle(k, root, h, "a/b", "ab");
  }

  lemma CollidersNeverSettle(k: Kernel, root: string, h: Host, a: string, b: string)
    requires a != b && SysctlPath(root, a) == SysctlPath(root, b) && SysctlPath(root, a) in h.sysctls && h.unreadable == {}
    ensures NeverSettles(TwoKeys(root, a, b), k, h)
  {
    FieldsWord("0");
    FieldsWord("1");
    var r := TwoKeys(root, a, b);
    forall n: nat ensures r.Check(Times(r.Applier(k), h, n)) == Checked(WouldChange, false) {
      r.ConflictNeverSettles(k, h, a, b, n);
    }
  }
}
