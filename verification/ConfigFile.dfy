// The settings file as a user sees it: what a line means, what saving writes, and
// which line counts on loading.

module ConfigFile {
  import opened LocalConfig

  /* Lines */

  // White space as in a classic locale.
  predicate Gap(s: string) {
    forall c <- s :: c == ' ' || 9 as char <= c <= 13 as char
  }

  // A word without white space at its ends.
  predicate Word(s: string) { s != "" && !Gap(s[..1]) && !Gap(s[|s| - 1..]) }

  lemma {:induction false} GapLeft(s: string, t: string)
    requires Gap(s) && (t == "" || !Gap(t[..1]))
    ensures TrimLeft(s + t) == t
    decreases |s|
  {
    hide Gap, IsSpace;
    if s == "" {
      assert s + t == t;
      FirstOfGap(t);
    } else {
      GapEnds(s);
      assert (s + t)[0] == s[0] && (s + t)[1..] == s[1..] + t;
      GapLeft(s[1..], t);
    }
  }

  lemma {:induction false} GapEnds(s: string)
    requires s != "" && Gap(s)
    ensures IsSpace(s[0]) && IsSpace(s[|s| - 1]) && Gap(s[1..]) && Gap(s[..|s| - 1])
  {
    var front, rest := s[..|s| - 1], s[1..];
    assert s[0] in s && s[|s| - 1] in s;
    assert forall c <- front :: c in s;
    assert forall c <- rest :: c in s;
    assert Gap(front) && Gap(rest);
  }

  lemma {:induction false} OneGap(c: char)
    ensures Gap([c]) <==> IsSpace(c)
  {
    assert c in [c];
  }

  lemma {:induction false} FirstOfGap(t: string)
    ensures t != "" ==> (Gap(t[..1]) <==> IsSpace(t[0])) && (Gap(t[|t| - 1..]) <==> IsSpace(t[|t| - 1]))
  {
    if t != "" {
      OneGap(t[0]);
      OneGap(t[|t| - 1]);
      assert t[..1] == [t[0]] && t[|t| - 1..] == [t[|t| - 1]];
    }
  }

  lemma {:induction false} GapRight(t: string, s: string)
    requires Gap(s) && (t == "" || !Gap(t[|t| - 1..]))
    ensures TrimRight(t + s) == t
    decreases |s|
  {
    hide Gap, IsSpace;
    if s == "" {
      assert t + s == t;
      FirstOfGap(t);
    } else {
      GapEnds(s);
      var u := t + s;
      assert u[|u| - 1] == s[|s| - 1] && u[..|u| - 1] == t + s[..|s| - 1];
      GapRight(t, s[..|s| - 1]);
    }
  }

  // The names of the settings.
  function Named(key: string): Key {
    if key == "uid" then Uid
    else if key == "inputDevice" then InputDevice
    else if key == "outputDevice" then OutputDevice
    else if key == "inferDevice" then InferDevice
    else if key == "modelName" then ModelName
    else if key == "previousServers" then PreviousServers
    else NoKey
  }

  function Note(noted: bool, comment: string): string { if noted then "#" + comment else "" }

  // Behind a comment mark nothing counts, and no white space around the line.
  lemma {:induction false} StripsTo(a: string, text: string, d: string, noted: bool, comment: string)
    requires Gap(a) && Gap(d) && '#' !in text && (text == "" || Word(text))
    ensures Stripped(a + text + d + Note(noted, comment)) == text
  {
    hide TrimLeft, TrimRight, Find, Gap;
    var front, line := a + text + d, a + text + d + Note(noted, comment);
    NoMark(a, d, text);
    if noted {
      assert line[|front|] == '#' && forall k :: 0 <= k < |front| ==> line[k] == front[k];
      FirstIs(line, '#', |front|);
    } else {
      assert line == front;
    }
    assert line[..Find(line, '#')] == front;
    Trims(a, text, d);
  }

  lemma {:induction false} NoMark(a: string, d: string, text: string)
    requires Gap(a) && Gap(d) && '#' !in text
    ensures '#' !in a + text + d && '#' !in a && '#' !in d && '=' !in a && '=' !in d
    ensures Find(a + text + d, '#') == |a + text + d|
  {
    assert '#' !in a + text + d;
  }

  // Trimming takes the white space at both ends, and nothing else.
  lemma {:induction false} Trims(a: string, text: string, d: string)
    requires Gap(a) && Gap(d) && (text == "" || Word(text))
    ensures TrimRight(TrimLeft(a + text + d)) == text == Trimmed(a + text + d)
  {
    hide TrimLeft, TrimRight, Gap;
    assert a + text + d == a + (text + d);
    if text == "" {
      GapsJoin(a, d);
      NothingLeft("");
      assert a + (text + d) == a + d && (a + d) + "" == a + d;
      GapLeft(a + d, "");
      assert "" + "" == "";
      GapRight("", "");
    } else {
      assert (text + d)[..1] == text[..1];
      GapLeft(a, text + d);
      GapRight(text, d);
    }
  }

  lemma {:induction false} GapsJoin(a: string, d: string)
    requires Gap(a) && Gap(d)
    ensures Gap(a + d)
  {
  }

  lemma {:induction false} NothingLeft(s: string)
    requires s == ""
    ensures Gap(s)
  {
  }

  // A line with a key, an equals sign and a value, with white space and a comment
  // anywhere. The value may hold further equals signs. What is passed through is
  // the line without its comment and outer white space.
  lemma {:induction false} LineReads(a: string, key: string, b: string, c: string, v: string, d: string,
                                     noted: bool, comment: string)
    requires Gap(a) && Gap(b) && Gap(c) && Gap(d)
    requires Word(key) && '=' !in key && '#' !in key && (v == "" || Word(v)) && '#' !in v
    ensures var line := a + (key + b + "=" + (if v == "" then "" else c + v)) + ((if v == "" then c else "") + d)
                        + Note(noted, comment);
            ParseLine(line)
            == Parsed(key + b + "=" + (if v == "" then "" else c + v), Named(key),
                      if Named(key) == NoKey then "" else v)
  {
    hide TrimLeft, TrimRight, Find, Gap, Stripped, KeyOf, Named;
    var tail := if v == "" then "" else c + v;
    var text := key + b + "=" + tail;
    GapsJoin(c, d);
    NothingLeft("");
    NoMark(b, c, "");
    TextIsWord(key, b, tail, v);
    assert '#' !in text;
    assert (if v == "" then c else "") + d == if v == "" then c + d else d;
    StripsTo(a, text, if v == "" then c + d else d, noted, comment);
    EqualsFound(key, b, tail);
    KeyTrims(key, b);
    ValueTrims(c, v);
    NamesAgree(key);
  }

  lemma {:induction false} NamesAgree(key: string)
    ensures KeyOf(key) == Named(key)
  {
  }

  lemma {:induction false} TextIsWord(key: string, b: string, tail: string, v: string)
    requires Word(key) && (v == "" || Word(v))
    requires if v == "" then tail == "" else |tail| >= |v| && tail[|tail| - |v|..] == v
    ensures Word(key + b + "=" + tail)
  {
    var text := key + b + "=" + tail;
    assert text[..1] == key[..1];
    if v == "" {
      assert text[|text| - 1..] == "=";
      assert !Gap("=") by { assert '=' in "="; }
    } else {
      assert text[|text| - 1] == tail[|tail| - 1] == v[|v| - 1];
      assert text[|text| - 1..] == [v[|v| - 1]] == v[|v| - 1..];
    }
  }

  lemma {:induction false} EqualsFound(key: string, b: string, tail: string)
    requires '=' !in key && '=' !in b
    ensures var s := key + b + "=" + tail;
            Find(s, '=') == |key + b| < |s| && s[..|key + b|] == key + b && s[|key + b| + 1..] == tail
  {
    hide Find;
    var s := key + b + "=" + tail;
    assert s[|key + b|] == '=' && forall k :: 0 <= k < |key + b| ==> s[k] == (key + b)[k];
    FirstIs(s, '=', |key + b|);
  }

  lemma {:induction false} KeyTrims(key: string, b: string)
    requires Word(key) && Gap(b)
    ensures TrimRight(key + b) == key
  {
    hide Gap, TrimRight;
    GapRight(key, b);
  }

  lemma {:induction false} ValueTrims(c: string, v: string)
    requires Gap(c) && (v == "" || Word(v))
    ensures TrimLeft(if v == "" then "" else c + v) == v
  {
    hide Gap;
    if v != "" { GapLeft(c, v); }
  }

  // A line without an equals sign in front of its comment says nothing, and is
  // passed through.
  lemma {:induction false} OtherLine(a: string, text: string, d: string, noted: bool, comment: string)
    requires Gap(a) && Gap(d) && '#' !in text && '=' !in text && (text == "" || Word(text))
    ensures ParseLine(a + text + d + Note(noted, comment)) == Parsed(text, NoKey, "")
  {
    hide TrimLeft, TrimRight, Gap, Stripped;
    StripsTo(a, text, d, noted, comment);
    assert Find(text, '=') == |text|;
  }

  /* What saving writes */

  // The texts of the two boxes replace their settings if there was a line for them.
  function Final(c: Config, w: Window, prior: seq<string>): Config {
    var infer := w.Window? && w.inferText != "" && HasKey(prior, InferDevice);
    var model := w.Window? && w.modelText != "" && HasKey(prior, ModelName);
    c.(inferDevice := if infer then w.inferText else c.inferDevice,
       modelName := if model then w.modelText else c.modelName)
  }

  lemma {:induction false} SettledIsFinal(c: Config, w: Window, prior: seq<string>)
    ensures Settled(c, w, prior) == Final(c, w, prior)
    decreases |prior|
  {
    hide ParseLine, HasKey;
    HasKeyLast(prior, InferDevice);
    HasKeyLast(prior, ModelName);
    if prior != [] { SettledIsFinal(c, w, prior[..|prior| - 1]); }
  }

  // What is written for a setting.
  function SettingLine(c: Config, k: Key): string {
    match k
    case Uid => "uid=" + c.clientID
    case InputDevice => "inputDevice=" + c.inputDevice
    case OutputDevice => "outputDevice=" + c.outputDevice
    case InferDevice => "inferDevice=" + c.inferDevice
    case ModelName => "modelName=" + c.modelName
    case _ => ""
  }

  function Value(c: Config, k: Key): string {
    match k
    case Uid => c.clientID
    case InputDevice => c.inputDevice
    case OutputDevice => c.outputDevice
    case InferDevice => c.inferDevice
    case ModelName => c.modelName
    case _ => ""
  }

  // Each old line has its place in the new file: lines that say nothing stay, and
  // so do those that say what is set; other settings are replaced, and the history
  // unless it is to be skipped or there is no window.
  lemma {:induction false} OldLines(prior: seq<string>, c: Config, w: Window, skip: bool, i: nat)
    requires i < |prior|
    ensures i < |Saved(prior, c, w, skip)|
    ensures var p, d := ParseLine(prior[i]), Final(c, w, prior);
            Saved(prior, c, w, skip)[i]
            == if p.key == PreviousServers then
                 (if w.Window? && !skip then "previousServers=" + HistoryString(w) else p.line)
               else if p.key == NoKey || p.value == Value(d, p.key) then p.line
               else SettingLine(d, p.key)
  {
    hide ParseLine, HistoryString, HasKey, Missing, Settled, Final;
    var d := Settled(c, w, prior);
    SettledIsFinal(c, w, prior);
    RewrittenAt(prior, d, w, skip, i);
    LineOf(ParseLine(prior[i]), d, w, skip);
  }

  lemma {:induction false} LineOf(p: Parsed, d: Config, w: Window, skip: bool)
    ensures Rewritten(p, d, w, skip)
         == if p.key == PreviousServers then
              (if w.Window? && !skip then "previousServers=" + HistoryString(w) else p.line)
            else if p.key == NoKey || p.value == Value(d, p.key) then p.line
            else SettingLine(d, p.key)
  {
    hide HistoryString;
    assert "previousServers" + "=" == "previousServers=" && "uid" + "=" == "uid=";
    assert "inputDevice" + "=" == "inputDevice=" && "outputDevice" + "=" == "outputDevice=";
    assert "inferDevice" + "=" == "inferDevice=" && "modelName" + "=" == "modelName=";
  }

  lemma {:induction false} RewrittenAt(prior: seq<string>, d: Config, w: Window, skip: bool, i: nat)
    requires i < |prior|
    ensures RewrittenAll(prior, d, w, skip)[i] == Rewritten(ParseLine(prior[i]), d, w, skip)
    decreases |prior|
  {
    hide Rewritten, ParseLine;
    if i < |prior| - 1 { RewrittenAt(prior[..|prior| - 1], d, w, skip, i); }
  }

  // Behind them come the keys that had no line, in this order.
  lemma {:induction false} NewLines(prior: seq<string>, c: Config, w: Window, skip: bool)
    ensures |prior| <= |Saved(prior, c, w, skip)|
    ensures var d := Final(c, w, prior);
            var history := if w.Window? && !skip then HistoryString(w) else "none";
            Saved(prior, c, w, skip)[|prior|..]
            == (if HasKey(prior, Uid) then [] else ["uid=" + d.clientID])
               + (if HasKey(prior, InputDevice) then [] else ["inputDevice=" + d.inputDevice])
               + (if HasKey(prior, OutputDevice) then [] else ["outputDevice=" + d.outputDevice])
               + (if HasKey(prior, InferDevice) then [] else ["inferDevice=" + d.inferDevice])
               + (if HasKey(prior, ModelName) then [] else ["modelName=" + d.modelName])
               + (if HasKey(prior, PreviousServers) then [] else ["previousServers=" + history])
  {
    hide ParseLine, HistoryString, HasKey, Settled, Final, RewrittenAll;
    var d := Settled(c, w, prior);
    SettledIsFinal(c, w, prior);
    assert "previousServers" + "=" == "previousServers=" && "uid" + "=" == "uid=";
    assert "inputDevice" + "=" == "inputDevice=" && "outputDevice" + "=" == "outputDevice=";
    assert "inferDevice" + "=" == "inferDevice=" && "modelName" + "=" == "modelName=";
    assert Saved(prior, c, w, skip)[|prior|..] == Missing(prior, d, w, skip);
  }

  // The server list in a line: each server with a semicolon behind it.
  lemma {:induction false} HistoryReads(w: Window)
    requires w.Window?
    ensures HistoryString(w) == if History(w) == [] then "none" else Semicolons(History(w))
  {
    hide History;
    JoinedIs(History(w));
  }

  function Semicolons(servers: seq<string>): string
    decreases |servers|
  {
    if servers == [] then "" else Semicolons(servers[..|servers| - 1]) + servers[|servers| - 1] + ";"
  }

  lemma {:induction false} JoinedIs(servers: seq<string>)
    ensures Joined(servers) == Semicolons(servers)
    decreases |servers|
  {
    if servers != [] {
      var n := |servers| - 1;
      JoinedLast(servers[..n], servers[n]);
      JoinedIs(servers[..n]);
      assert servers[..n] + [servers[n]] == servers;
    }
  }

  lemma {:induction false} JoinedLast(servers: seq<string>, s: string)
    ensures Joined(servers + [s]) == Joined(servers) + s + ";"
    decreases |servers|
  {
    if servers == [] {
      assert servers + [s] == [s] && Joined([s][1..]) == "";
      assert s + ";" + "" == "" + s + ";";
    } else {
      var all := servers + [s];
      assert all[0] == servers[0] && all[1..] == servers[1..] + [s];
      JoinedLast(servers[1..], s);
      assert servers[0] + ";" + (Joined(servers[1..]) + s + ";") == servers[0] + ";" + Joined(servers[1..]) + s + ";";
    }
  }

  /* What loading reads */

  // Line i is the last one that gives this setting a value.
  predicate LastSaying(lines: seq<string>, i: nat, k: Key) {
    && i < |lines| && Says(lines[i], k)
    && forall j :: i < j < |lines| ==> !Says(lines[j], k)
  }

  // The word none gives no value, but for the identifier.
  predicate Says(line: string, k: Key) {
    ParseLine(line).key == k && (k == Uid || ParseLine(line).value != "none")
  }

  // The last line that gives a setting a value counts.
  lemma {:induction false} LastLineCounts(l: Loaded, lines: seq<string>, window: bool, k: Key, i: nat)
    requires k != NoKey && k != PreviousServers && LastSaying(lines, i, k)
    ensures Value(LoadAll(l, lines, window).config, k) == ParseLine(lines[i]).value
    decreases |lines|
  {
    hide ParseLine, Says, LoadLine, Value;
    var n := |lines| - 1;
    OneLine(LoadAll(l, lines[..n], window), lines[n], window, k);
    if i < n { LastLineCounts(l, lines[..n], window, k, i); }
  }

  // Without one the setting stays.
  lemma {:induction false} NoLineCounts(l: Loaded, lines: seq<string>, window: bool, k: Key)
    requires k != NoKey && k != PreviousServers && forall line <- lines :: !Says(line, k)
    ensures Value(LoadAll(l, lines, window).config, k) == Value(l.config, k)
    decreases |lines|
  {
    hide ParseLine, Says, LoadLine, Value;
    if lines != [] {
      var n := |lines| - 1;
      assert lines[n] in lines && forall line <- lines[..n] :: line in lines;
      OneLine(LoadAll(l, lines[..n], window), lines[n], window, k);
      NoLineCounts(l, lines[..n], window, k);
    }
  }

  lemma {:induction false} OneLine(l: Loaded, line: string, window: bool, k: Key)
    requires k != NoKey && k != PreviousServers
    ensures Value(LoadLine(l, line, window).config, k)
         == if Says(line, k) then ParseLine(line).value else Value(l.config, k)
  {
    hide ParseLine, Split;
  }

  // A line with servers is read as their list, with or without a semicolon at its
  // end, and cut off behind the fifth.
  lemma {:induction false} ServersRead(l: Loaded, line: string, servers: seq<string>, closed: bool)
    requires servers != [] && (forall s <- servers :: s != "" && ';' !in s) && servers != ["none"]
    requires ParseLine(line).key == PreviousServers
    requires var text := Semicolons(servers);
             ParseLine(line).value == if closed then text else text[..|text| - 1]
    ensures LoadLine(l, line, true) == l.(servers := if |servers| <= 5 then servers else servers[..5])
  {
    hide ParseLine, Split, Joined, Semicolons;
    var text := Semicolons(servers);
    JoinedIs(servers);
    TextEnds(servers);
    assert text[..|text| - 1] + ";" == text;
    FirstFive(servers, 5);
  }

  lemma {:induction false} TextEnds(servers: seq<string>)
    requires servers != [] && (forall s <- servers :: s != "" && ';' !in s) && servers != ["none"]
    ensures var text := Semicolons(servers);
            && |text| >= 2 && text[|text| - 1] == ';' && text[|text| - 2] != ';'
            && text != "none" && text[..|text| - 1] != "none"
  {
    var n := |servers| - 1;
    var text := Semicolons(servers);
    assert servers[n] in servers;
    var front := Semicolons(servers[..n]);
    assert text == front + servers[n] + ";";
    assert text[|text| - 2] == servers[n][|servers[n]| - 1];
    if n == 0 {
      assert front == "" && text[..|text| - 1] == servers[0];
      assert servers == [servers[0]];
    } else {
      assert servers[..n] != [] && front == Semicolons(servers[..n][..n - 1]) + servers[..n][n - 1] + ";";
      assert text[|front| - 1] == ';' && text[..|text| - 1][|front| - 1] == ';';
      assert ';' !in "none";
    }
    assert text[|text| - 1] == ';' && "none"[3] == 'e';
  }

  lemma {:induction false} FirstFive(servers: seq<string>, n: nat)
    requires forall s <- servers :: ';' !in s
    ensures Split(Joined(servers), n) == if |servers| <= n then servers else servers[..n]
    decreases n
  {
    hide Split, Find;
    if servers == [] || n == 0 {
      NoSplit(n);
      NoneSplit(Joined(servers));
    } else {
      var s, others := servers[0], servers[1..];
      assert s in servers && forall x <- others :: x in servers;
      FirstFive(others, n - 1);
      SplitStep(s, Joined(others), n);
      if Joined(others) == "" { NoSplit(n - 1); NothingJoined(others); }
      assert [s] + others == servers && (|servers| > n ==> [s] + others[..n - 1] == servers[..n]);
    }
  }

  lemma {:induction false} NothingJoined(servers: seq<string>)
    requires Joined(servers) == ""
    ensures servers == []
  {
  }

  lemma {:induction false} NoSplit(n: nat)
    ensures Split("", n) == [] && Joined([]) == ""
  {
  }

  lemma {:induction false} NoneSplit(s: string)
    ensures Split(s, 0) == []
  {
  }

  // The other lines for the servers: none keeps the list, and so does any line
  // without a window; an empty one is misread and leaves no list.
  lemma {:induction false} OtherServers(l: Loaded, line: string, window: bool)
    requires ParseLine(line).key == PreviousServers
    ensures ParseLine(line).value == "none" || !window ==> LoadLine(l, line, window) == l
    ensures ParseLine(line).value == "" && window ==> LoadLine(l, line, window) == Loaded(l.config, [], true)
  {
    hide ParseLine, Split;
  }
}
