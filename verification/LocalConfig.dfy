// The settings file: lines of key=value pairs, rewritten on saving and read back
// on loading. A file is taken as its lines.

module LocalConfig {
  /* Text */

  predicate IsSpace(c: char) { c == ' ' || c == '\t' || c == '\n' || c == '\r' || c == 11 as char || c == 12 as char }

  // The first position of c; the length when it does not occur.
  function Find(s: string, c: char): (i: nat)
    ensures i <= |s| && (i < |s| ==> s[i] == c) && (i == |s| <==> c !in s)
    ensures forall k :: 0 <= k < i ==> s[k] != c
  {
    if s == "" || s[0] == c then 0 else 1 + Find(s[1..], c)
  }

  function TrimLeft(s: string): string { if s != "" && IsSpace(s[0]) then TrimLeft(s[1..]) else s }

  function TrimRight(s: string): string {
    if s != "" && IsSpace(s[|s| - 1]) then TrimRight(s[..|s| - 1]) else s
  }

  function Trimmed(s: string): string { TrimRight(TrimLeft(s)) }

  predicate StartsClean(s: string) { s == "" || !IsSpace(s[0]) }

  predicate EndsClean(s: string) { s == "" || !IsSpace(s[|s| - 1]) }

  lemma {:induction false} TrimmedLeft(s: string)
    ensures StartsClean(TrimLeft(s)) && (StartsClean(s) ==> TrimLeft(s) == s)
    ensures forall c <- TrimLeft(s) :: c in s
    ensures EndsClean(s) ==> EndsClean(TrimLeft(s))
    decreases |s|
  {
    if s != "" && IsSpace(s[0]) {
      TrimmedLeft(s[1..]);
    }
  }

  lemma {:induction false} TrimmedRight(s: string)
    ensures EndsClean(TrimRight(s)) && (EndsClean(s) ==> TrimRight(s) == s)
    ensures forall c <- TrimRight(s) :: c in s
    ensures StartsClean(s) ==> StartsClean(TrimRight(s))
    decreases |s|
  {
    if s != "" && IsSpace(s[|s| - 1]) {
      TrimmedRight(s[..|s| - 1]);
    }
  }

  /* Lines */

  datatype Key = Uid | InputDevice | OutputDevice | InferDevice | ModelName | PreviousServers | NoKey

  function KeyText(k: Key): string {
    match k
    case Uid => "uid"
    case InputDevice => "inputDevice"
    case OutputDevice => "outputDevice"
    case InferDevice => "inferDevice"
    case ModelName => "modelName"
    case PreviousServers => "previousServers"
    case NoKey => ""
  }

  function KeyOf(s: string): Key {
    if s == "uid" then Uid
    else if s == "inputDevice" then InputDevice
    else if s == "outputDevice" then OutputDevice
    else if s == "previousServers" then PreviousServers
    else if s == "inferDevice" then InferDevice
    else if s == "modelName" then ModelName
    else NoKey
  }

  // What parsing makes of a line: the line itself without its comment and outer
  // white space, and the pair it holds.
  datatype Parsed = Parsed(line: string, key: Key, value: string)

  function Stripped(line: string): string { TrimRight(TrimLeft(line[..Find(line, '#')])) }

  function ParseLine(line: string): Parsed {
    var s := Stripped(line);
    var eq := Find(s, '=');
    if eq == |s| then Parsed(s, NoKey, "")
    else
      var key := KeyOf(TrimRight(s[..eq]));
      Parsed(s, key, if key == NoKey then "" else TrimLeft(s[eq + 1..]))
  }

  // Values that survive a line: trimmed, without a comment mark or a line end.
  predicate Plain(v: string) { StartsClean(v) && EndsClean(v) && '#' !in v && '\n' !in v }

  lemma {:induction false} StripsToItself(s: string)
    requires StartsClean(s) && EndsClean(s) && '#' !in s
    ensures Stripped(s) == s
  {
    assert Find(s, '#') == |s| && s[..|s|] == s;
    TrimmedLeft(s);
    TrimmedRight(s);
  }

  lemma {:induction false} StrippedIsClean(line: string)
    ensures var s := Stripped(line); StartsClean(s) && EndsClean(s) && '#' !in s
    ensures '\n' !in line ==> '\n' !in Stripped(line)
  {
    var t := line[..Find(line, '#')];
    assert '#' !in t;
    TrimmedLeft(t);
    TrimmedRight(TrimLeft(t));
  }

  // A line that was passed through reads as it read before.
  lemma {:induction false} ParseTwice(line: string)
    ensures ParseLine(ParseLine(line).line) == ParseLine(line)
  {
    hide TrimLeft, TrimRight;
    StrippedIsClean(line);
    StripsToItself(Stripped(line));
  }

  function Written(k: Key, v: string): string { KeyText(k) + "=" + v }

  lemma {:induction false} KeyIsItself(k: Key)
    requires k != NoKey
    ensures KeyOf(KeyText(k)) == k
  {
    var s := KeyText(k);
    assert k == InferDevice ==> s[2] == 'f';
    assert k == InputDevice ==> s[2] == 'p';
  }

  lemma {:induction false} KeyIsClean(k: Key)
    requires k != NoKey
    ensures CleanWord(KeyText(k))
  {
    match k
    case Uid => assert CleanWord("uid");
    case InputDevice => assert CleanWord("inputDevice");
    case OutputDevice => assert CleanWord("outputDevice");
    case InferDevice => assert CleanWord("inferDevice");
    case ModelName => assert CleanWord("modelName");
    case PreviousServers => assert CleanWord("previousServers");
  }

  predicate CleanWord(s: string) {
    s != "" && !IsSpace(s[0]) && !IsSpace(s[|s| - 1]) && '=' !in s && '#' !in s && '\n' !in s
  }

  // A written line, cut where its equals sign is.
  lemma {:induction false} WrittenCuts(key: string, v: string)
    requires CleanWord(key) && Plain(v)
    ensures var s := key + "=" + v;
            && StartsClean(s) && EndsClean(s) && '#' !in s
            && Find(s, '=') == |key| < |s| && s[..|key|] == key && s[|key| + 1..] == v
  {
    var s := key + "=" + v;
    assert s[0] == key[0] && s[|key|] == '=';
    assert v != "" ==> s[|s| - 1] == v[|v| - 1];
    assert v == "" ==> s[|s| - 1] == '=';
    assert forall i :: 0 <= i < |key| ==> s[i] == key[i];
    FirstIs(s, '=', |key|);
  }

  // A line that was written reads as what was written.
  lemma {:induction false} WrittenParses(k: Key, v: string)
    requires k != NoKey && Plain(v)
    ensures ParseLine(Written(k, v)) == Parsed(Written(k, v), k, v)
  {
    hide KeyText, KeyOf, TrimLeft, TrimRight, Stripped, Find, Plain, CleanWord;
    KeyIsClean(k);
    KeyIsItself(k);
    var key, s := KeyText(k), Written(k, v);
    WrittenCuts(key, v);
    StripsToItself(s);
    CleanTrims(key, v);
  }

  lemma {:induction false} CleanTrims(key: string, v: string)
    requires CleanWord(key) && Plain(v)
    ensures TrimRight(key) == key && TrimLeft(v) == v
  {
    TrimmedRight(key);
    TrimmedLeft(v);
  }

  lemma {:induction false} FirstIs(s: string, c: char, i: nat)
    requires i < |s| && s[i] == c && forall k :: 0 <= k < i ==> s[k] != c
    ensures Find(s, c) == i
  {
    assert Find(s, c) <= i;
  }

  /* Settings */

  datatype Config = Config(clientID: string, inputDevice: string, outputDevice: string,
                           inferDevice: string, modelName: string)

  function Get(c: Config, k: Key): string {
    match k
    case Uid => c.clientID
    case InputDevice => c.inputDevice
    case OutputDevice => c.outputDevice
    case InferDevice => c.inferDevice
    case ModelName => c.modelName
    case _ => ""
  }

  function Set(c: Config, k: Key, v: string): Config {
    match k
    case Uid => c.(clientID := v)
    case InputDevice => c.(inputDevice := v)
    case OutputDevice => c.(outputDevice := v)
    case InferDevice => c.(inferDevice := v)
    case ModelName => c.(modelName := v)
    case _ => c
  }

  // The combo boxes that saving looks at; without a window there are none.
  datatype Window = NoWindow | Window(inferText: string, modelText: string, current: string, items: seq<string>)

  const MAX_SERVERS: nat := 5

  /* The server history */

  // The entries from items that are not empty and not in the list yet, until it is full.
  function Collected(servers: seq<string>, items: seq<string>): seq<string>
    decreases |items|
  {
    if items == [] || |servers| >= MAX_SERVERS then servers
    else
      var entry := Trimmed(items[0]);
      Collected(if entry != "" && entry !in servers then servers + [entry] else servers, items[1..])
  }

  function History(w: Window): seq<string>
    requires w.Window?
  {
    var current := Trimmed(w.current);
    Collected(if current != "" then [current] else [], w.items)
  }

  function Joined(servers: seq<string>): string {
    if servers == [] then "" else servers[0] + ";" + Joined(servers[1..])
  }

  function HistoryString(w: Window): string
    requires w.Window?
  {
    if History(w) == [] then "none" else Joined(History(w))
  }

  // The list that a history is read back as.
  function Split(value: string, n: nat): seq<string>
    decreases n
  {
    var i := Find(value, ';');
    if n == 0 || i == |value| then []
    else [value[..i]] + (if |value| > i + 1 then Split(value[i + 1..], n - 1) else [])
  }

  predicate Distinct(servers: seq<string>) {
    forall i, j :: 0 <= i < j < |servers| ==> servers[i] != servers[j]
  }

  // Up to five different entries, none empty, in their order, those collected
  // before in front.
  lemma {:induction false} CollectedIsList(servers: seq<string>, items: seq<string>)
    requires Distinct(servers) && |servers| <= MAX_SERVERS && "" !in servers
    ensures var r := Collected(servers, items);
            servers <= r && Distinct(r) && |r| <= MAX_SERVERS && "" !in r
    ensures |Collected(servers, items)| < MAX_SERVERS ==>
              forall x <- items :: Trimmed(x) == "" || Trimmed(x) in Collected(servers, items)
    decreases |items|
  {
    hide TrimLeft, TrimRight;
    if items != [] && |servers| < MAX_SERVERS {
      var entry := Trimmed(items[0]);
      var next := if entry != "" && entry !in servers then servers + [entry] else servers;
      CollectedIsList(next, items[1..]);
      var r := Collected(servers, items);
      assert entry != "" ==> entry in next;
      assert forall x <- next :: x in r;
      assert items == [items[0]] + items[1..];
    }
  }

  // No box entry in front of number k is x.
  predicate NewAt(items: seq<string>, k: nat, x: string) {
    k < |items| && Trimmed(items[k]) == x && forall m :: 0 <= m < k ==> Trimmed(items[m]) != x
  }

  // The entries behind those collected before are box entries, in the order of
  // the box, each taken where it first occurs.
  predicate TakenInOrder(before: seq<string>, after: seq<string>, items: seq<string>, at: seq<nat>) {
    && before <= after && |after| == |before| + |at|
    && (forall j :: 0 <= j < |at| ==> NewAt(items, at[j], after[|before| + j]))
    && (forall i, j :: 0 <= i < j < |at| ==> at[i] < at[j])
  }

  lemma {:induction false} CollectedInOrder(servers: seq<string>, items: seq<string>) returns (at: seq<nat>)
    requires Distinct(servers) && |servers| <= MAX_SERVERS && "" !in servers
    ensures TakenInOrder(servers, Collected(servers, items), items, at)
    decreases |items|
  {
    hide Trimmed, TakenInOrder;
    at := [];
    if items == [] || |servers| >= MAX_SERVERS {
      NoneTaken(servers, items);
    } else {
      var entry := Trimmed(items[0]);
      var taken := entry != "" && entry !in servers;
      var next := if taken then servers + [entry] else servers;
      var after := Collected(next, items[1..]);
      CollectedIsList(next, items[1..]);
      var rest := CollectedInOrder(next, items[1..]);
      at := seq(|rest|, j requires 0 <= j < |rest| => rest[j] + 1);
      if taken {
        FirstTaken(servers, entry, after, items, rest, at);
        at := [0] + at;
      } else {
        LaterTaken(servers, after, items, rest, at);
      }
    }
  }

  lemma {:induction false} NoneTaken(servers: seq<string>, items: seq<string>)
    ensures TakenInOrder(servers, servers, items, [])
  {
  }

  lemma {:induction false} NewLater(items: seq<string>, k: nat, x: string)
    requires items != [] && Trimmed(items[0]) != x && NewAt(items[1..], k, x)
    ensures NewAt(items, k + 1, x)
  {
    hide Trimmed;
    forall m | 0 <= m < k + 1
      ensures Trimmed(items[m]) != x
    {
      if m > 0 { assert Trimmed(items[1..][m - 1]) != x; }
    }
  }

  lemma {:induction false} FirstTaken(servers: seq<string>, entry: string, after: seq<string>, items: seq<string>,
                                      rest: seq<nat>, at: seq<nat>)
    requires items != [] && entry == Trimmed(items[0])
    requires TakenInOrder(servers + [entry], after, items[1..], rest) && Distinct(after)
    requires at == seq(|rest|, j requires 0 <= j < |rest| => rest[j] + 1)
    ensures TakenInOrder(servers, after, items, [0] + at)
  {
    hide Trimmed;
    var n, all := |servers|, [0] + at;
    assert (servers + [entry])[n] == entry == after[n];
    forall j | 0 <= j < |all|
      ensures NewAt(items, all[j], after[n + j])
    {
      if j > 0 {
        assert NewAt(items[1..], rest[j - 1], after[n + 1 + (j - 1)]);
        NewLater(items, rest[j - 1], after[n + j]);
      }
    }
    assert servers <= servers + [entry];
  }

  lemma {:induction false} LaterTaken(servers: seq<string>, after: seq<string>, items: seq<string>,
                                      rest: seq<nat>, at: seq<nat>)
    requires items != [] && (Trimmed(items[0]) == "" || Trimmed(items[0]) in servers)
    requires TakenInOrder(servers, after, items[1..], rest) && Distinct(after) && "" !in after
    requires at == seq(|rest|, j requires 0 <= j < |rest| => rest[j] + 1)
    ensures TakenInOrder(servers, after, items, at)
  {
    hide Trimmed;
    var n := |servers|;
    forall j | 0 <= j < |at|
      ensures NewAt(items, at[j], after[n + j])
    {
      assert NewAt(items[1..], rest[j], after[n + j]);
      NotTaken(servers, after, Trimmed(items[0]), n + j);
      NewLater(items, rest[j], after[n + j]);
    }
  }

  lemma {:induction false} NotTaken(servers: seq<string>, after: seq<string>, x: string, k: nat)
    requires servers <= after && Distinct(after) && "" !in after && |servers| <= k < |after|
    requires x == "" || x in servers
    ensures x != after[k]
  {
    assert after[k] in after;
    if x in servers {
      var i :| 0 <= i < |servers| && servers[i] == x;
      assert after[i] == x;
    }
  }

  // The server in use comes first; the others are the trimmed box entries, in
  // the order of the box and once each, up to five in all.
  lemma {:induction false} HistoryIsList(w: Window) returns (at: seq<nat>)
    requires w.Window?
    ensures var h, current := History(w), Trimmed(w.current);
            && Distinct(h) && |h| <= MAX_SERVERS && "" !in h
            && TakenInOrder(if current != "" then [current] else [], h, w.items, at)
            && (|h| < MAX_SERVERS ==> forall x <- w.items :: Trimmed(x) == "" || Trimmed(x) in h)
  {
    hide TrimLeft, TrimRight;
    var first := if Trimmed(w.current) != "" then [Trimmed(w.current)] else [];
    CollectedIsList(first, w.items);
    at := CollectedInOrder(first, w.items);
  }

  lemma {:induction false} FirstEntry(s: string, rest: string)
    requires ';' !in s
    ensures var v := s + ";" + rest;
            && Find(v, ';') == |s| && v[..|s|] == s && v[|s| + 1..] == rest && |v| == |s| + 1 + |rest|
  {
    hide Find;
    var v := s + ";" + rest;
    assert forall i :: 0 <= i < |s| ==> v[i] == s[i];
    FirstIs(v, ';', |s|);
  }

  lemma {:induction false} JoinedIsMore(servers: seq<string>)
    requires servers != []
    ensures |Joined(servers)| > 0
  {
  }

  lemma {:induction false} SplitStep(s: string, rest: string, n: nat)
    requires n > 0 && ';' !in s
    ensures Split(s + ";" + rest, n) == [s] + (if rest != "" then Split(rest, n - 1) else [])
  {
    hide Find;
    FirstEntry(s, rest);
    var v := s + ";" + rest;
    assert Split(v, n) == [v[..|s|]] + (if |v| > |s| + 1 then Split(v[|s| + 1..], n - 1) else []);
  }

  predicate NoSemicolons(servers: seq<string>) { forall s <- servers :: ';' !in s }

  lemma {:induction false} SplitJoined(servers: seq<string>, n: nat)
    requires 0 < |servers| <= n && NoSemicolons(servers)
    ensures Split(Joined(servers), n) == servers
    decreases |servers|
  {
    hide Split, NoSemicolons;
    var s, others := servers[0], servers[1..];
    NoSemicolonsSplit(servers);
    SplitStep(s, Joined(others), n);
    assert [s] + others == servers;
    if others != [] {
      JoinedIsMore(others);
      SplitJoined(others, n - 1);
    }
  }

  lemma {:induction false} NoSemicolonsSplit(servers: seq<string>)
    requires servers != [] && NoSemicolons(servers)
    ensures ';' !in servers[0] && NoSemicolons(servers[1..])
  {
    assert servers[0] in servers && forall x <- servers[1..] :: x in servers;
  }

  // A history reads back from its line.
  lemma {:induction false} JoinedIsPlain(servers: seq<string>)
    requires servers != [] && forall s <- servers :: s != "" && Plain(s)
    ensures Plain(Joined(servers)) && Joined(servers) != "none" && Joined(servers) != ""
    ensures Joined(servers)[|Joined(servers)| - 1] == ';'
    decreases |servers|
  {
    var s, rest := servers[0], Joined(servers[1..]);
    assert s in servers && forall x <- servers[1..] :: x in servers;
    if |servers| > 1 {
      JoinedIsPlain(servers[1..]);
    }
    var v := Joined(servers);
    assert v == s + ";" + rest && v[0] == s[0];
    assert v[|v| - 1] == ';';
  }

  /* Saving */

  // What the window changes in the settings: the texts of two combo boxes, when
  // the old file has a line for them.
  function Shown(c: Config, w: Window, k: Key): Config {
    if w.NoWindow? then c
    else if k == InferDevice && w.inferText != "" then c.(inferDevice := w.inferText)
    else if k == ModelName && w.modelText != "" then c.(modelName := w.modelText)
    else c
  }

  // The settings once the old lines have been seen.
  function Settled(c: Config, w: Window, prior: seq<string>): Config
    decreases |prior|
  {
    if prior == [] then c else Shown(Settled(c, w, prior[..|prior| - 1]), w, ParseLine(prior[|prior| - 1]).key)
  }

  // What is written for an old line.
  function Rewritten(p: Parsed, c: Config, w: Window, skipHistory: bool): string {
    match p.key
    case NoKey => p.line
    case PreviousServers =>
      if w.Window? && !skipHistory then Written(PreviousServers, HistoryString(w)) else p.line
    case k => if p.value != Get(c, k) then Written(k, Get(c, k)) else p.line
  }

  function RewrittenAll(prior: seq<string>, c: Config, w: Window, skipHistory: bool): (r: seq<string>)
    ensures |r| == |prior|
    decreases |prior|
  {
    if prior == [] then []
    else
      RewrittenAll(prior[..|prior| - 1], c, w, skipHistory)
      + [Rewritten(ParseLine(prior[|prior| - 1]), c, w, skipHistory)]
  }

  predicate HasKey(lines: seq<string>, k: Key) { exists line <- lines :: ParseLine(line).key == k }

  // A line, unless there was one.
  function Unless(there: bool, line: string): seq<string> { if there then [] else [line] }

  // The lines for keys that the old file did not have.
  function Missing(prior: seq<string>, c: Config, w: Window, skipHistory: bool): seq<string> {
    Unless(HasKey(prior, Uid), Written(Uid, c.clientID))
    + Unless(HasKey(prior, InputDevice), Written(InputDevice, c.inputDevice))
    + Unless(HasKey(prior, OutputDevice), Written(OutputDevice, c.outputDevice))
    + Unless(HasKey(prior, InferDevice), Written(InferDevice, c.inferDevice))
    + Unless(HasKey(prior, ModelName), Written(ModelName, c.modelName))
    + Unless(HasKey(prior, PreviousServers),
             Written(PreviousServers, if w.Window? && !skipHistory then HistoryString(w) else "none"))
  }

  function Saved(prior: seq<string>, c: Config, w: Window, skipHistory: bool): seq<string> {
    var d := Settled(c, w, prior);
    RewrittenAll(prior, d, w, skipHistory) + Missing(prior, d, w, skipHistory)
  }

  /* Loading */

  // What loading changes: the settings and, with a window, the list of servers;
  // and whether it has read the last character of an empty text, from where on
  // the list is whatever that makes of it.
  datatype Loaded = Loaded(config: Config, servers: seq<string>, misread: bool)

  function LoadLine(l: Loaded, line: string, window: bool): Loaded {
    var p := ParseLine(line);
    match p.key
    case NoKey => l
    case Uid => l.(config := Set(l.config, Uid, p.value))
    case PreviousServers =>
      if p.value == "none" || !window then l
      else if p.value == "" then l.(servers := [], misread := true)
      else
        l.(servers := Split(if p.value[|p.value| - 1] != ';' then p.value + ";" else p.value, MAX_SERVERS))
    case k => if p.value == "none" then l else l.(config := Set(l.config, k, p.value))
  }

  function LoadAll(l: Loaded, lines: seq<string>, window: bool): Loaded
    decreases |lines|
  {
    if lines == [] then l else LoadLine(LoadAll(l, lines[..|lines| - 1], window), lines[|lines| - 1], window)
  }

  /* The settings object */

  class Settings {
    var config: Config

    constructor (c: Config)
      ensures config == c
    {
      config := c;
    }

    // The list of servers to save.
    method CollectServers(w: Window) returns (servers: seq<string>)
      requires w.Window?
      ensures servers == History(w)
    {
      hide TrimLeft, TrimRight;
      servers := [];
      var current := Trimmed(w.current);
      if current != "" {
        servers := [current];
      }
      ghost var start := servers;
      var i := 0;
      while i < |w.items| && |servers| < MAX_SERVERS
        invariant 0 <= i <= |w.items| && Collected(servers, w.items[i..]) == Collected(start, w.items)
      {
        assert w.items[i..][0] == w.items[i] && w.items[i..][1..] == w.items[i + 1..];
        var entry := Trimmed(w.items[i]);
        if entry != "" && entry !in servers {
          servers := servers + [entry];
        }
        i := i + 1;
      }
      assert Collected(servers, w.items[i..]) == servers;
    }

    method ServerHistoryString(w: Window) returns (out: string)
      requires w.Window?
      ensures out == HistoryString(w)
    {
      hide History, Joined;
      var servers := CollectServers(w);
      if servers == [] {
        return "none";
      }
      out := "";
      var j := 0;
      assert servers[0..] == servers && "" + Joined(servers) == Joined(servers);
      while j < |servers|
        invariant 0 <= j <= |servers| && out + Joined(servers[j..]) == Joined(servers)
      {
        JoinedTurn(out, servers, j);
        out := out + servers[j] + ";";
        j := j + 1;
      }
      JoinedEnds(out, servers);
    }

    // Replaces the lines of known keys and adds those that are missing.
    method Save(prior: seq<string>, w: Window, skipHistory: bool) returns (lines: seq<string>)
      modifies this
      ensures config == Settled(old(config), w, prior) && lines == Saved(prior, old(config), w, skipHistory)
    {
      hide ParseLine, Rewritten, HistoryString, Shown;
      lines := [];
      var seen: set<Key> := {};
      var i := 0;
      while i < |prior|
        invariant 0 <= i <= |prior| && config == Settled(old(config), w, prior[..i])
        invariant lines == RewrittenAll(prior[..i], config, w, skipHistory)
        invariant forall k :: k in seen <==> HasKey(prior[..i], k)
      {
        var p := ParseLine(prior[i]);
        SaveTurn(prior, i, old(config), w, skipHistory);
        seen := seen + {p.key};
        config := Shown(config, w, p.key);
        lines := lines + [Rewritten(p, config, w, skipHistory)];
        i := i + 1;
      }
      assert prior[..i] == prior;
      var missing := MissingLines(seen, prior, w, skipHistory);
      lines := lines + missing;
    }

    method MissingLines(seen: set<Key>, ghost prior: seq<string>, w: Window, skipHistory: bool)
      returns (missing: seq<string>)
      requires forall k :: k in seen <==> HasKey(prior, k)
      ensures missing == Missing(prior, config, w, skipHistory)
    {
      hide HistoryString, Written, HasKey, Unless;
      missing := Unless(Uid in seen, Written(Uid, config.clientID));
      missing := missing + Unless(InputDevice in seen, Written(InputDevice, config.inputDevice));
      missing := missing + Unless(OutputDevice in seen, Written(OutputDevice, config.outputDevice));
      missing := missing + Unless(InferDevice in seen, Written(InferDevice, config.inferDevice));
      missing := missing + Unless(ModelName in seen, Written(ModelName, config.modelName));
      var history := "none";
      if w.Window? && !skipHistory {
        history := ServerHistoryString(w);
      }
      missing := missing + Unless(PreviousServers in seen, Written(PreviousServers, history));
    }

    // Cuts a history at its semicolons, up to five times.
    method ReadServers(history: string) returns (servers: seq<string>)
      ensures servers == Split(history, MAX_SERVERS)
    {
      hide Split, Find;
      servers := [];
      var value := history;
      var i := 0;
      NothingInFront(Split(history, MAX_SERVERS));
      while i < MAX_SERVERS
        invariant 0 <= i <= MAX_SERVERS && servers + Split(value, MAX_SERVERS - i) == Split(history, MAX_SERVERS)
      {
        var index := Find(value, ';');
        SplitTurn(servers, value, MAX_SERVERS - i);
        if index == |value| {
          return;
        }
        servers := servers + [value[..index]];
        if |value| > index + 1 {
          value := value[index + 1..];
        } else {
          return;
        }
        i := i + 1;
      }
      NoMoreCuts(servers, value);
    }

    // With a window, its list of servers is read as well.
    method Load(lines: seq<string>, window: bool, combo: seq<string>) returns (servers: seq<string>, misread: bool)
      modifies this
      ensures Loaded(config, servers, misread) == LoadAll(Loaded(old(config), combo, false), lines, window)
    {
      hide ParseLine, Split, Get, Set;
      servers, misread := combo, false;
      var i := 0;
      while i < |lines|
        invariant 0 <= i <= |lines|
        invariant Loaded(config, servers, misread) == LoadAll(Loaded(old(config), combo, false), lines[..i], window)
      {
        assert lines[..i + 1][..i] == lines[..i];
        var p := ParseLine(lines[i]);
        if p.key == PreviousServers {
          if p.value != "none" && window {
            servers := [];
            if p.value == "" {
              misread := true;
            } else {
              var value := p.value;
              if value[|value| - 1] != ';' {
                value := value + ";";
              }
              servers := ReadServers(value);
            }
          }
        } else if p.key == Uid || (p.key != NoKey && p.value != "none") {
          config := Set(config, p.key, p.value);
        }
        i := i + 1;
      }
      assert lines[..i] == lines;
    }
  }

  lemma {:induction false} JoinedTurn(out: string, servers: seq<string>, j: nat)
    requires j < |servers|
    ensures out + Joined(servers[j..]) == (out + servers[j] + ";") + Joined(servers[j + 1..])
  {
    assert servers[j..][0] == servers[j] && servers[j..][1..] == servers[j + 1..];
    var rest := Joined(servers[j + 1..]);
    assert out + (servers[j] + ";" + rest) == (out + servers[j] + ";") + rest;
  }

  lemma {:induction false} JoinedEnds(out: string, servers: seq<string>)
    ensures out + Joined(servers[|servers|..]) == out
  {
    assert servers[|servers|..] == [] && out + "" == out;
  }

  lemma {:induction false} NothingInFront(s: seq<string>)
    ensures [] + s == s
  {
  }

  lemma {:induction false} NoMoreCuts(servers: seq<string>, value: string)
    ensures servers + Split(value, 0) == servers
  {
    assert servers + [] == servers;
  }

  // One cut: the entry in front of a semicolon, and what is read of the rest.
  lemma {:induction false} SplitTurn(servers: seq<string>, value: string, n: nat)
    requires n > 0
    ensures var i := Find(value, ';');
            (servers + Split(value, n)
              == if i == |value| then servers
                 else if |value| > i + 1 then (servers + [value[..i]]) + Split(value[i + 1..], n - 1)
                 else servers + [value[..i]])
  {
    hide Find;
    var i := Find(value, ';');
    if i == |value| {
      assert servers + [] == servers;
    } else if |value| > i + 1 {
      Regroup(servers, [value[..i]], Split(value[i + 1..], n - 1));
    } else {
      assert [value[..i]] + [] == [value[..i]];
    }
  }

  lemma {:induction false} Regroup(a: seq<string>, b: seq<string>, c: seq<string>)
    ensures a + (b + c) == (a + b) + c
  {
  }

  // The settings no longer change for a key that has been seen.
  lemma {:induction false} SettledStays(c: Config, w: Window, prior: seq<string>, k: Key)
    requires HasKey(prior, k)
    ensures Shown(Settled(c, w, prior), w, k) == Settled(c, w, prior)
    decreases |prior|
  {
    hide ParseLine, HasKey;
    var n := |prior|;
    HasKeyLast(prior, k);
    if ParseLine(prior[n - 1]).key != k {
      SettledStays(c, w, prior[..n - 1], k);
    }
  }

  lemma {:induction false} HasKeyLast(lines: seq<string>, k: Key)
    ensures HasKey(lines, k) <==>
              lines != [] && (ParseLine(lines[|lines| - 1]).key == k || HasKey(lines[..|lines| - 1], k))
  {
    hide ParseLine;
    if lines != [] {
      assert lines == lines[..|lines| - 1] + [lines[|lines| - 1]];
    }
  }

  // Lines depend on the settings of their own keys only.
  lemma {:induction false} RewrittenSame(prior: seq<string>, c: Config, d: Config, w: Window, skip: bool)
    requires forall k :: HasKey(prior, k) ==> Get(c, k) == Get(d, k)
    ensures RewrittenAll(prior, c, w, skip) == RewrittenAll(prior, d, w, skip)
    decreases |prior|
  {
    hide ParseLine, HasKey, HistoryString;
    if prior != [] {
      forall k
        ensures HasKey(prior[..|prior| - 1], k) ==> HasKey(prior, k)
      {
        HasKeyLast(prior, k);
      }
      HasKeyLast(prior, ParseLine(prior[|prior| - 1]).key);
      RewrittenSame(prior[..|prior| - 1], c, d, w, skip);
    }
  }

  // One turn of the loop over the old lines.
  lemma {:induction false} SaveTurn(prior: seq<string>, i: nat, c: Config, w: Window, skip: bool)
    requires i < |prior|
    ensures var k := ParseLine(prior[i]).key;
            var d, e := Settled(c, w, prior[..i]), Shown(Settled(c, w, prior[..i]), w, k);
            && e == Settled(c, w, prior[..i + 1])
            && RewrittenAll(prior[..i + 1], e, w, skip)
            == RewrittenAll(prior[..i], d, w, skip) + [Rewritten(ParseLine(prior[i]), e, w, skip)]
            && (forall q :: HasKey(prior[..i + 1], q) <==> HasKey(prior[..i], q) || q == k)
  {
    hide ParseLine, HasKey, Rewritten, Shown;
    assert prior[..i + 1][..i] == prior[..i];
    var k := ParseLine(prior[i]).key;
    var d := Settled(c, w, prior[..i]);
    var e := Shown(d, w, k);
    forall q
      ensures HasKey(prior[..i + 1], q) <==> HasKey(prior[..i], q) || q == k
    {
      HasKeyLast(prior[..i + 1], q);
    }
    forall q
      ensures HasKey(prior[..i], q) ==> Get(d, q) == Get(e, q)
    {
      if HasKey(prior[..i], q) {
        SettledStays(c, w, prior[..i], q);
        ShownOther(d, w, k, q);
      }
    }
    RewrittenSame(prior[..i], d, e, w, skip);
  }

  lemma {:induction false} ShownOther(d: Config, w: Window, k: Key, q: Key)
    requires Shown(d, w, q) == d
    ensures Get(d, q) == Get(Shown(d, w, k), q)
  {
  }

  /* Saved and loaded */

  predicate IsSetting(k: Key) { k != NoKey && k != PreviousServers }

  predicate AllPlain(c: Config) {
    Plain(c.clientID) && Plain(c.inputDevice) && Plain(c.outputDevice) && Plain(c.inferDevice) && Plain(c.modelName)
  }

  predicate ServersPlain(w: Window)
    requires w.Window?
  {
    forall s <- History(w) :: Plain(s) && ';' !in s
  }

  // All lines for the key k say v.
  predicate AllSay(lines: seq<string>, k: Key, v: string) {
    forall line <- lines :: ParseLine(line).key == k ==> ParseLine(line).value == v
  }

  lemma {:induction false} HistoryIsPlain(w: Window)
    requires w.Window? && ServersPlain(w)
    ensures Plain(HistoryString(w)) && HistoryString(w) != ""
    ensures History(w) != [] ==> HistoryString(w) != "none" && Split(HistoryString(w), MAX_SERVERS) == History(w)
    ensures History(w) != [] ==> HistoryString(w)[|HistoryString(w)| - 1] == ';'
  {
    hide Plain, Split, Joined;
    var _ := HistoryIsList(w);
    var h := History(w);
    if h == [] {
      NoneIsPlain();
    } else {
      JoinedIsPlain(h);
      SplitJoined(h, MAX_SERVERS);
    }
  }

  lemma {:induction false} NoneIsPlain()
    ensures Plain("none")
  {
  }

  // What a rewritten line says: the same key, with the value of the settings or
  // the history.
  lemma {:induction false} RewrittenParses(line: string, c: Config, w: Window, skip: bool)
    requires AllPlain(c) && (w.Window? && !skip ==> Plain(HistoryString(w)))
    ensures var p, r := ParseLine(line), ParseLine(Rewritten(ParseLine(line), c, w, skip));
            && r.key == p.key
            && (IsSetting(p.key) ==> r.value == Get(c, p.key))
            && (p.key == PreviousServers && w.Window? && !skip ==> r.value == HistoryString(w))
  {
    hide ParseLine, Plain, HistoryString, Written;
    var p := ParseLine(line);
    ParseTwice(line);
    if IsSetting(p.key) {
      WrittenParses(p.key, Get(c, p.key));
    } else if p.key == PreviousServers && w.Window? && !skip {
      WrittenParses(PreviousServers, HistoryString(w));
    }
  }

  lemma {:induction false} RewrittenSays(prior: seq<string>, c: Config, w: Window, skip: bool, k: Key, v: string)
    requires AllPlain(c) && (w.Window? && !skip ==> Plain(HistoryString(w)))
    requires (IsSetting(k) && v == Get(c, k)) || (k == PreviousServers && w.Window? && !skip && v == HistoryString(w))
    ensures AllSay(RewrittenAll(prior, c, w, skip), k, v)
    ensures HasKey(prior, k) <==> HasKey(RewrittenAll(prior, c, w, skip), k)
    decreases |prior|
  {
    hide ParseLine, Plain, HistoryString, Rewritten, HasKey, AllPlain;
    var r := RewrittenAll(prior, c, w, skip);
    HasKeyLast(prior, k);
    HasKeyLast(r, k);
    if prior != [] {
      var n := |prior|;
      RewrittenSays(prior[..n - 1], c, w, skip, k, v);
      RewrittenParses(prior[n - 1], c, w, skip);
      assert r[..n - 1] == RewrittenAll(prior[..n - 1], c, w, skip);
      assert r == r[..n - 1] + [r[n - 1]];
    }
  }

  lemma {:induction false} SayConcat(a: seq<string>, b: seq<string>, k: Key, v: string)
    ensures AllSay(a + b, k, v) <==> AllSay(a, k, v) && AllSay(b, k, v)
    ensures HasKey(a + b, k) <==> HasKey(a, k) || HasKey(b, k)
  {
    hide ParseLine;
    assert forall line :: line in a + b <==> line in a || line in b;
  }

  // One line that may be missing.
  lemma {:induction false} OneSays(there: bool, key: Key, value: string, k: Key, v: string)
    requires key != NoKey && Plain(value) && (key == k ==> value == v)
    ensures var lines := Unless(there, Written(key, value));
            AllSay(lines, k, v) && (HasKey(lines, k) <==> !there && key == k)
  {
    hide ParseLine, Plain, Written;
    WrittenParses(key, value);
    if !there { assert Written(key, value) in [Written(key, value)]; }
  }

  lemma {:induction false} MissingSays(prior: seq<string>, c: Config, w: Window, skip: bool, k: Key, v: string)
    requires AllPlain(c) && (w.Window? && !skip ==> Plain(HistoryString(w)))
    requires (IsSetting(k) && v == Get(c, k)) || (k == PreviousServers && w.Window? && !skip && v == HistoryString(w))
    ensures AllSay(Missing(prior, c, w, skip), k, v)
    ensures !HasKey(prior, k) ==> HasKey(Missing(prior, c, w, skip), k)
  {
    hide ParseLine, Plain, HistoryString, Written, AllSay, HasKey, Unless;
    var history := if w.Window? && !skip then HistoryString(w) else "none";
    NoneIsPlain();
    OneSays(HasKey(prior, Uid), Uid, c.clientID, k, v);
    OneSays(HasKey(prior, InputDevice), InputDevice, c.inputDevice, k, v);
    OneSays(HasKey(prior, OutputDevice), OutputDevice, c.outputDevice, k, v);
    OneSays(HasKey(prior, InferDevice), InferDevice, c.inferDevice, k, v);
    OneSays(HasKey(prior, ModelName), ModelName, c.modelName, k, v);
    OneSays(HasKey(prior, PreviousServers), PreviousServers, history, k, v);
    var l1 := Unless(HasKey(prior, Uid), Written(Uid, c.clientID));
    var l2 := Unless(HasKey(prior, InputDevice), Written(InputDevice, c.inputDevice));
    var l3 := Unless(HasKey(prior, OutputDevice), Written(OutputDevice, c.outputDevice));
    var l4 := Unless(HasKey(prior, InferDevice), Written(InferDevice, c.inferDevice));
    var l5 := Unless(HasKey(prior, ModelName), Written(ModelName, c.modelName));
    var l6 := Unless(HasKey(prior, PreviousServers), Written(PreviousServers, history));
    SayConcat(l1, l2, k, v);
    SayConcat(l1 + l2, l3, k, v);
    SayConcat(l1 + l2 + l3, l4, k, v);
    SayConcat(l1 + l2 + l3 + l4, l5, k, v);
    SayConcat(l1 + l2 + l3 + l4 + l5, l6, k, v);
  }

  lemma {:induction false} SavedSays(prior: seq<string>, c: Config, w: Window, skip: bool, k: Key, v: string)
    requires AllPlain(Settled(c, w, prior)) && (w.Window? && !skip ==> Plain(HistoryString(w)))
    requires (IsSetting(k) && v == Get(Settled(c, w, prior), k))
             || (k == PreviousServers && w.Window? && !skip && v == HistoryString(w))
    ensures AllSay(Saved(prior, c, w, skip), k, v) && HasKey(Saved(prior, c, w, skip), k)
  {
    hide ParseLine, Plain, HistoryString, AllSay, HasKey, AllPlain, Settled, Missing, RewrittenAll;
    var d := Settled(c, w, prior);
    RewrittenSays(prior, d, w, skip, k, v);
    MissingSays(prior, d, w, skip, k, v);
    SayConcat(RewrittenAll(prior, d, w, skip), Missing(prior, d, w, skip), k, v);
  }

  lemma {:induction false} LoadLineSays(l: Loaded, line: string, window: bool, k: Key, v: string)
    requires IsSetting(k) && (ParseLine(line).key == k ==> ParseLine(line).value == v) && (k == Uid || v != "none")
    ensures Get(LoadLine(l, line, window).config, k) == if ParseLine(line).key == k then v else Get(l.config, k)
  {
    hide ParseLine, Split;
  }

  // A key of which all lines say the same is loaded with that value.
  lemma {:induction false} LoadSays(l: Loaded, lines: seq<string>, window: bool, k: Key, v: string)
    requires IsSetting(k) && AllSay(lines, k, v) && (k == Uid || v != "none")
    ensures Get(LoadAll(l, lines, window).config, k) == if HasKey(lines, k) then v else Get(l.config, k)
    decreases |lines|
  {
    hide ParseLine, HasKey, LoadLine, Get, IsSetting;
    HasKeyLast(lines, k);
    if lines != [] {
      var n := |lines|;
      assert forall x <- lines[..n - 1] :: x in lines;
      LoadSays(l, lines[..n - 1], window, k, v);
      assert lines[n - 1] in lines;
      LoadLineSays(LoadAll(l, lines[..n - 1], window), lines[n - 1], window, k, v);
    }
  }

  lemma {:induction false} LoadServersSay(l: Loaded, lines: seq<string>, v: string)
    requires AllSay(lines, PreviousServers, v) && v != "none" && v != "" && v[|v| - 1] == ';'
    ensures LoadAll(l, lines, true).servers
         == if HasKey(lines, PreviousServers) then Split(v, MAX_SERVERS) else l.servers
    decreases |lines|
  {
    hide ParseLine, HasKey, Split;
    HasKeyLast(lines, PreviousServers);
    if lines != [] {
      var n := |lines|;
      assert forall x <- lines[..n - 1] :: x in lines;
      LoadServersSay(l, lines[..n - 1], v);
      assert lines[n - 1] in lines;
    }
  }

  // Whatever the old file held, saving and loading restores every setting that
  // is not the word that stands for no setting. That word is not restored: what
  // was set before stays.
  lemma {:induction false} SaveThenLoad(prior: seq<string>, c: Config, w: Window, skip: bool, l: Loaded,
                                        window: bool, k: Key)
    requires IsSetting(k) && AllPlain(Settled(c, w, prior)) && (w.Window? && !skip ==> ServersPlain(w))
    ensures var v := Get(Settled(c, w, prior), k);
            Get(LoadAll(l, Saved(prior, c, w, skip), window).config, k)
            == if v == "none" && k != Uid then Get(l.config, k) else v
  {
    hide ParseLine, AllPlain, Settled, Saved, HistoryString, AllSay, HasKey, ServersPlain;
    var v := Get(Settled(c, w, prior), k);
    if w.Window? && !skip { HistoryIsPlain(w); }
    SavedSays(prior, c, w, skip, k, v);
    if k == Uid || v != "none" {
      LoadSays(l, Saved(prior, c, w, skip), window, k, v);
    } else {
      LoadNone(l, Saved(prior, c, w, skip), window, k);
    }
  }

  lemma {:induction false} LoadNone(l: Loaded, lines: seq<string>, window: bool, k: Key)
    requires IsSetting(k) && k != Uid && AllSay(lines, k, "none")
    ensures Get(LoadAll(l, lines, window).config, k) == Get(l.config, k)
    decreases |lines|
  {
    hide ParseLine, Split;
    if lines != [] {
      var n := |lines|;
      assert forall x <- lines[..n - 1] :: x in lines;
      LoadNone(l, lines[..n - 1], window, k);
      assert lines[n - 1] in lines;
    }
  }

  // Loading misreads if and only if, with a window, some line holds an empty history.
  lemma {:induction false} MisreadsEmptyOnly(l: Loaded, lines: seq<string>, window: bool)
    ensures LoadAll(l, lines, window).misread <==>
              l.misread
              || (window
                  && exists line <- lines :: ParseLine(line).key == PreviousServers && ParseLine(line).value == "")
    decreases |lines|
  {
    hide ParseLine, Split, Set;
    if lines != [] {
      var n := |lines|;
      MisreadsEmptyOnly(l, lines[..n - 1], window);
      assert lines == lines[..n - 1] + [lines[n - 1]];
      assert forall x :: x in lines <==> x in lines[..n - 1] || x == lines[n - 1];
    }
  }

  // And a history that was written is read back as the same list of servers.
  lemma {:induction false} SaveThenLoadServers(prior: seq<string>, c: Config, w: Window, l: Loaded)
    requires w.Window? && AllPlain(Settled(c, w, prior)) && ServersPlain(w) && History(w) != []
    ensures LoadAll(l, Saved(prior, c, w, false), true).servers == History(w)
    ensures LoadAll(l, Saved(prior, c, w, false), true).misread == l.misread
  {
    hide ParseLine, AllPlain, Settled, Saved, HistoryString, AllSay, HasKey, ServersPlain, Split, History;
    HistoryIsPlain(w);
    SavedSays(prior, c, w, false, PreviousServers, HistoryString(w));
    LoadServersSay(l, Saved(prior, c, w, false), HistoryString(w));
    MisreadsEmptyOnly(l, Saved(prior, c, w, false), true);
    NoneEmpty(Saved(prior, c, w, false), HistoryString(w));
  }

  lemma {:induction false} NoneEmpty(lines: seq<string>, v: string)
    requires AllSay(lines, PreviousServers, v) && v != ""
    ensures !exists line <- lines :: ParseLine(line).key == PreviousServers && ParseLine(line).value == ""
  {
    hide ParseLine;
  }
}
