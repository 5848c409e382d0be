/** Switching the local POS between environments (client_new/do/config.py): the environment's files are moved into a
    backup folder named after the old environment key, then the target's backup is moved back. */
module PosSwitch {
  import opened PyJson

  /** A place holding files: the POS folder, or the backup folder of an environment key. */
  datatype Place = Live | Backup(key: string)

  datatype Path = Path(place: Place, name: string)

  /** Files and folders with their whole content. */
  type Files = map<Path, string>

  /** `environ` is `pos_env` in pos.ini; `backupStatus` is 2 while a restore is unfinished. */
  datatype Pos = Pos(files: Files, environ: string, backupStatus: int)

  function At(fs: Files, p: Path): Option<string> {
    if p in fs then Some(fs[p]) else None
  }

  /** `copy_any_file`: removes the target, then renames the source onto it if there is one. */
  function CopyAnyFile(fs: Files, source: Path, target: Path): Files {
    var cleared := fs - {target};
    if source in cleared then (cleared - {source})[target := cleared[source]] else cleared
  }

  function MoveAll(fs: Files, names: seq<string>, from: Place, to: Place): Files {
    if names == [] then fs
    else
      var n := |names| - 1;
      CopyAnyFile(MoveAll(fs, names[..n], from, to), Path(from, names[n]), Path(to, names[n]))
  }

  /** What reading pos_params gives: the vendor and organisation numbers, or an exception. */
  type ParamsReader = string -> Option<(string, string)>

  const PARAMS := Path(Live, "pos_params")

  /** The key of the current environment; it cannot be had when pos_params is there but unreadable. */
  function CurrentKey(pos: Pos, read: ParamsReader): Option<string> {
    match At(pos.files, PARAMS)
    case None => Some(pos.environ)
    case Some(content) =>
      match read(content)
      case None => None
      case Some((vendor, org)) => Some(pos.environ + "_" + vendor + "_" + org)
  }

  function Underscores(s: string): nat {
    if s == "" then 0 else Underscores(s[..|s| - 1]) + if s[|s| - 1] == '_' then 1 else 0
  }

  /** `len(key.split("_")) <= 2`: such a key is not backed up. */
  predicate ShortKey(key: string) {
    Underscores(key) + 1 <= 2
  }

  function LowerChar(c: char): char {
    if 'A' <= c <= 'Z' then c - 'A' + 'a' else c
  }

  function Lower(s: string): string {
    seq(|s|, i requires 0 <= i < |s| => LowerChar(s[i]))
  }

  predicate PartAt(s: string, part: string, i: nat) {
    i + |part| <= |s| && s[i..i + |part|] == part
  }

  predicate Contains(s: string, part: string) {
    exists i: nat | i <= |s| :: PartAt(s, part, i)
  }

  function EnvironOf(key: string): string {
    if Contains(Lower(key), "test") then "RTA_TEST" else if Contains(Lower(key), "uat") then "RTA_UAT" else "RTA"
  }

  predicate BacksUp(pos: Pos, key: string) {
    !ShortKey(key) && pos.backupStatus != 2
  }

  /** The letters of `part`, all lower case, stand somewhere in the text in either case. */
  predicate Mentions(s: string, part: string) {
    exists i: nat | i <= |s| :: MentionsAt(s, part, i)
  }

  predicate MentionsAt(s: string, part: string, i: nat) {
    i + |part| <= |s|
    && forall j | 0 <= j < |part| :: s[i + j] == part[j] || s[i + j] as int == part[j] as int - 32
  }

  predicate LowerLetters(part: string) {
    forall j | 0 <= j < |part| :: 'a' <= part[j] <= 'z'
  }

  lemma ContainsMeans(s: string, part: string)
    requires LowerLetters(part)
    ensures Contains(Lower(s), part) <==> Mentions(s, part)
  {
    var t := Lower(s);
    assert forall i | 0 <= i < |s| :: t[i] == LowerChar(s[i]);
    forall i: nat | i <= |s| ensures PartAt(t, part, i) <==> MentionsAt(s, part, i) {
      if PartAt(t, part, i) {
        forall j | 0 <= j < |part| ensures s[i + j] == part[j] || s[i + j] as int == part[j] as int - 32 {
          assert t[i..i + |part|][j] == LowerChar(s[i + j]);
        }
      }
      if MentionsAt(s, part, i) {
        assert t[i..i + |part|] == part;
      }
    }
  }

  /** The switch from the environment whose key is `old` to `target`. */
  function Switched(pos: Pos, names: seq<string>, current: string, target: string): Pos {
    var saved := if BacksUp(pos, current) then MoveAll(pos.files, names, Live, Backup(current)) else pos.files;
    Pos(MoveAll(saved, names, Backup(target), Live), EnvironOf(target), 3)
  }

  /** A switch to `target` from whatever environment is in place; with unreadable parameters it is refused. */
  function Operated(pos: Pos, names: seq<string>, read: ParamsReader, target: string): Pos {
    match CurrentKey(pos, read)
    case None => pos
    case Some(key) => Switched(pos, names, key, target)
  }

  datatype Reply = Ok | PosMissing | IniMissing | ParamsUnreadable

  // ---- The operation ----

  class PosConfig {
    var files: Files
    var environ: string
    var backupStatus: int

    ghost function State(): Pos
      reads this
    {
      Pos(files, environ, backupStatus)
    }

    method MoveFiles(names: seq<string>, from: Place, to: Place)
      modifies this`files
      ensures files == MoveAll(old(files), names, from, to)
    {
      assert names[..0] == [];
      for i := 0 to |names|
        invariant files == MoveAll(old(files), names[..i], from, to)
      {
        assert names[..i + 1][..i] == names[..i];
        files := CopyAnyFile(files, Path(from, names[i]), Path(to, names[i]));
      }
      assert names[..|names|] == names;
    }

    method ChangePosLocalEnv(posExists: bool, iniExists: bool, envFiles: seq<string>, read: ParamsReader,
        target: string)
      returns (reply: Reply)
      modifies this
      ensures reply == if !posExists then PosMissing else if !iniExists then IniMissing
                       else if CurrentKey(old(State()), read).None? then ParamsUnreadable else Ok
      ensures reply != Ok ==> State() == old(State())
      ensures State() == if posExists && iniExists then Operated(old(State()), envFiles, read, target) else old(State())
    {
      if !posExists { return PosMissing; }
      if !iniExists { return IniMissing; }
      var key := CurrentKey(Pos(files, environ, backupStatus), read);
      if key.None? { return ParamsUnreadable; }
      var status := backupStatus;
      if ShortKey(key.value) { status := 2; }
      if status != 2 {
        backupStatus := 1;
        MoveFiles(envFiles, Live, Backup(key.value));
        status := 2;
        backupStatus := 2;
      }
      MoveFiles(envFiles, Backup(target), Live);
      backupStatus := 3;
      environ := EnvironOf(target);
      reply := Ok;
    }
  }

  /** What a switch leaves in pos.ini: the test environment if the key mentions "test" in any case, otherwise the
      acceptance environment if it mentions "uat", otherwise production; the backup counts as finished. Without a key
      nothing changes. */
  lemma EnvironAfterSwitch(pos: Pos, names: seq<string>, read: ParamsReader, target: string)
    ensures var after := Operated(pos, names, read, target);
      if CurrentKey(pos, read) == None then after == pos
      else
        && after.backupStatus == 3
        && (after.environ == "RTA_TEST" <==> Mentions(target, "test"))
        && (after.environ == "RTA_UAT" <==> !Mentions(target, "test") && Mentions(target, "uat"))
        && (after.environ == "RTA" <==> !Mentions(target, "test") && !Mentions(target, "uat"))
  {
    hide Contains, Mentions, Lower, MoveAll;
    ContainsMeans(target, "test");
    ContainsMeans(target, "uat");
    assert |"RTA_TEST"| == 8 && |"RTA_UAT"| == 7 && |"RTA"| == 3;
  }

  // ---- What a switch does to every file ----

  predicate Distinct(names: seq<string>) {
    forall i, j | 0 <= i < j < |names| :: names[i] != names[j]
  }

  /** What every path holds after the files were moved from one place to another: absences move too. */
  function Moved(fs: Files, names: seq<string>, from: Place, to: Place, p: Path): Option<string> {
    if p.name !in names then At(fs, p)
    else if p.place == to then At(fs, Path(from, p.name))
    else if p.place == from then None
    else At(fs, p)
  }

  lemma CopyEffect(fs: Files, source: Path, target: Path, p: Path)
    requires source != target
    ensures At(CopyAnyFile(fs, source, target), p) == if p == target then At(fs, source) else if p == source then None
      else At(fs, p)
  {
  }

  lemma {:induction false} MoveAllEffect(fs: Files, names: seq<string>, from: Place, to: Place, p: Path)
    requires Distinct(names) && from != to
    ensures At(MoveAll(fs, names, from, to), p) == Moved(fs, names, from, to, p)
  {
    if names != [] {
      var n := |names| - 1;
      var name := names[n];
      MoveAllEffect(fs, names[..n], from, to, p);
      MoveAllEffect(fs, names[..n], from, to, Path(from, name));
      CopyEffect(MoveAll(fs, names[..n], from, to), Path(from, name), Path(to, name), p);
      hide CopyAnyFile, At;
      assert names == names[..n] + [name];
      assert name !in names[..n];
    }
  }

  /** Where the content of a path comes from after a switch. */
  function AfterSwitch(pos: Pos, names: seq<string>, current: string, target: string, p: Path): Option<string> {
    if p.name !in names then At(pos.files, p)
    else if BacksUp(pos, current) then
      match p.place
      case Live => At(pos.files, if target == current then p else Path(Backup(target), p.name))
      case Backup(k) =>
        if k == target then None
        else if k == current then At(pos.files, Path(Live, p.name)) else At(pos.files, p)
    else
      match p.place
      case Live => At(pos.files, Path(Backup(target), p.name))
      case Backup(k) => if k == target then None else At(pos.files, p)
  }

  lemma SwitchEffect(pos: Pos, names: seq<string>, current: string, target: string, p: Path)
    requires Distinct(names)
    ensures At(Switched(pos, names, current, target).files, p) == AfterSwitch(pos, names, current, target, p)
  {
    hide MoveAll, Distinct;
    var saved := if BacksUp(pos, current) then MoveAll(pos.files, names, Live, Backup(current)) else pos.files;
    MoveAllEffect(saved, names, Backup(target), Live, p);
    if BacksUp(pos, current) {
      MoveAllEffect(pos.files, names, Live, Backup(current), p);
      MoveAllEffect(pos.files, names, Live, Backup(current), Path(Backup(target), p.name));
    }
  }

  ghost predicate SameFiles(a: Files, b: Files, names: seq<string>, from: Place, to: Place) {
    forall name | name in names :: At(a, Path(from, name)) == At(b, Path(to, name))
  }

  /** There and back, with any key `c` computed while in B: A's files come back exactly, absences included, if and
      only if that key is not A's own, or B's files were the same as A's anyway. */
  lemma ThereAndBackExactlyWhen(pos: Pos, names: seq<string>, a: string, b: string, c: string)
    requires Distinct(names) && BacksUp(pos, a) && a != b
    ensures var there := Switched(pos, names, a, b); var back := Switched(there, names, c, a);
      SameFiles(back.files, pos.files, names, Live, Live)
      <==> c != a || SameFiles(pos.files, pos.files, names, Backup(b), Live)
  {
    hide MoveAll, Distinct, ShortKey, EnvironOf;
    var there := Switched(pos, names, a, b);
    var back := Switched(there, names, c, a);
    forall name | name in names
      ensures At(back.files, Path(Live, name)) == At(pos.files, Path(if c != a then Live else Backup(b), name))
    {
      SwitchEffect(there, names, c, a, Path(Live, name));
      SwitchEffect(pos, names, a, b, Path(Live, name));
      SwitchEffect(pos, names, a, b, Path(Backup(a), name));
    }
  }

  /** The parameters that will be in place after a switch to `b`: those of its backup, or, when pos_params is no
      environment file, the ones in place now. */
  function ParamsIn(pos: Pos, names: seq<string>, b: string): Option<string> {
    if PARAMS.name in names then At(pos.files, Path(Backup(b), PARAMS.name)) else At(pos.files, PARAMS)
  }

  lemma KeyInB(pos: Pos, names: seq<string>, read: ParamsReader, a: string, b: string)
    requires Distinct(names) && BacksUp(pos, a) && a != b
    ensures CurrentKey(Switched(pos, names, a, b), read) ==
      match ParamsIn(pos, names, b)
      case None => Some(EnvironOf(b))
      case Some(content) =>
        match read(content)
        case None => None
        case Some((vendor, org)) => Some(EnvironOf(b) + "_" + vendor + "_" + org)
  {
    hide MoveAll, Distinct, ShortKey, EnvironOf;
    SwitchEffect(pos, names, a, b, PARAMS);
  }

  /** What a look at the files before the trip tells: with the parameters that will be in place in B, the key computed
      there can be had, and it is not A's, or B's files are A's anyway. */
  ghost predicate WayBackIsSafe(pos: Pos, names: seq<string>, read: ParamsReader, a: string, b: string) {
    match ParamsIn(pos, names, b)
    case None => true
    case Some(content) =>
      match read(content)
      case None => false
      case Some((vendor, org)) =>
        EnvironOf(b) + "_" + vendor + "_" + org != a || SameFiles(pos.files, pos.files, names, Backup(b), Live)
  }

  /** The whole trip, as the program makes it: with A's key backed up, switching to B and back to A restores A's files
      exactly, absences included, if and only if the way back is safe by the files there are before the trip; and it
      restores the environment of pos.ini with them if and only if, besides, A's whole key stands for that
      environment. */
  lemma TripRestoresExactlyWhen(pos: Pos, names: seq<string>, read: ParamsReader, a: string, b: string)
    requires Distinct(names) && CurrentKey(pos, read) == Some(a) && BacksUp(pos, a) && a != b
    ensures var back := Operated(Operated(pos, names, read, b), names, read, a);
      && (SameFiles(back.files, pos.files, names, Live, Live) <==> WayBackIsSafe(pos, names, read, a, b))
      && (SameFiles(back.files, pos.files, names, Live, Live) && back.environ == pos.environ
          <==> WayBackIsSafe(pos, names, read, a, b) && EnvironOf(a) == pos.environ)
  {
    var there := Switched(pos, names, a, b);
    KeyInB(pos, names, read, a, b);
    match CurrentKey(there, read)
    case None => UnreadableParamsAreOthers(pos, names, read, a, b);
    case Some(c) =>
      ThereAndBackExactlyWhen(pos, names, a, b, c);
      EnvironIsShort(b);
      hide MoveAll, Distinct, SameFiles, EnvironOf;
  }

  /** Parameters that cannot be read are not the ones A has, whose key is known. */
  lemma UnreadableParamsAreOthers(pos: Pos, names: seq<string>, read: ParamsReader, a: string, b: string)
    requires Distinct(names) && CurrentKey(pos, read) == Some(a) && BacksUp(pos, a) && a != b
    requires CurrentKey(Switched(pos, names, a, b), read) == None
    ensures !SameFiles(Switched(pos, names, a, b).files, pos.files, names, Live, Live)
    ensures !WayBackIsSafe(pos, names, read, a, b)
  {
    hide MoveAll, Distinct, ShortKey, EnvironOf;
    KeyInB(pos, names, read, a, b);
    SwitchEffect(pos, names, a, b, PARAMS);
  }

  /** With unreadable parameters in B's backup the POS is stuck in B: every later switch is refused, whatever its
      target, and A's files stay in A's backup. */
  lemma UnreadableParamsStrand(
    pos: Pos, names: seq<string>, read: ParamsReader, a: string, b: string, target: string, name: string)
    requires Distinct(names) && CurrentKey(pos, read) == Some(a) && BacksUp(pos, a) && a != b && name in names
    requires ParamsIn(pos, names, b).Some? && read(ParamsIn(pos, names, b).value) == None
    ensures var there := Operated(pos, names, read, b);
      && Operated(there, names, read, target) == there
      && At(there.files, Path(Backup(a), name)) == At(pos.files, Path(Live, name))
      && At(there.files, Path(Live, name)) == At(pos.files, Path(Backup(b), name))
  {
    hide MoveAll, Distinct, ShortKey, EnvironOf;
    KeyInB(pos, names, read, a, b);
    SwitchEffect(pos, names, a, b, Path(Backup(a), name));
    SwitchEffect(pos, names, a, b, Path(Live, name));
  }

  /** The backups of every environment other than the three keys involved, and every file that is not an environment
      file, are as they were. */
  lemma ThereAndBackTouchesNothingElse(pos: Pos, names: seq<string>, a: string, b: string, c: string, p: Path)
    requires Distinct(names) && (p.name !in names || (p.place.Backup? && p.place.key !in {a, b, c}))
    ensures At(Switched(Switched(pos, names, a, b), names, c, a).files, p) == At(pos.files, p)
  {
    SwitchEffect(pos, names, a, b, p);
    SwitchEffect(Switched(pos, names, a, b), names, c, a, p);
  }

  /** B's files end up in the backup of the key computed while in B. */
  lemma BackKeepsTheOtherFiles(pos: Pos, names: seq<string>, a: string, b: string, c: string, name: string)
    requires Distinct(names) && name in names && BacksUp(pos, a) && a != b && c != a && !ShortKey(c)
    ensures var back := Switched(Switched(pos, names, a, b), names, c, a);
      At(back.files, Path(Backup(c), name)) == At(pos.files, Path(Backup(b), name))
  {
    hide MoveAll, Distinct, ShortKey, EnvironOf;
    SwitchEffect(Switched(pos, names, a, b), names, c, a, Path(Backup(c), name));
    SwitchEffect(pos, names, a, b, Path(Live, name));
  }

  lemma SameEnding(x: string, y: string, t: string)
    requires x + t == y + t
    ensures x == y
  {
    assert |x| == |y|;
    assert x == (x + t)[..|x|] && y == (y + t)[..|y|];
  }

  /** When A's files come back, pos.ini names A's environment again, and the key computed next is A's again, exactly
      when A's whole key, parameters included, stands for that environment. */
  lemma BackRestoresTheKeyExactlyWhen(pos: Pos, names: seq<string>, read: ParamsReader, a: string, b: string, c: string)
    requires Distinct(names) && PARAMS.name in names && PARAMS in pos.files
    requires CurrentKey(pos, read) == Some(a) && pos.backupStatus != 2 && a != b && c != a
    ensures var back := Switched(Switched(pos, names, a, b), names, c, a);
      && (back.environ == pos.environ <==> EnvironOf(a) == pos.environ)
      && (CurrentKey(back, read) == Some(a) <==> EnvironOf(a) == pos.environ)
  {
    var back := Switched(Switched(pos, names, a, b), names, c, a);
    KnownParamsAreBackedUp(pos, read);
    ThereAndBackExactlyWhen(pos, names, a, b, c);
    assert At(back.files, Path(Live, PARAMS.name)) == At(pos.files, Path(Live, PARAMS.name));
    assert back.environ == EnvironOf(a);
    hide Switched, EnvironOf, ShortKey;
    var (vendor, org) := read(pos.files[PARAMS]).value;
    var ending := "_" + vendor + "_" + org;
    assert a == pos.environ + ending;
    assert CurrentKey(back, read) == Some(back.environ + "_" + vendor + "_" + org);
    assert back.environ + "_" + vendor + "_" + org == back.environ + ending;
    if back.environ + ending == pos.environ + ending { SameEnding(back.environ, pos.environ, ending); }
  }

  /** An example: a vendor number with "test" in it makes a production key stand for the test environment. */
  lemma VendorNamedTestChangesEnviron()
    ensures EnvironOf("RTA" + "_" + "test9" + "_" + "1") == "RTA_TEST" != "RTA"
  {
    hide Contains, Lower;
    var key := "RTA" + "_" + "test9" + "_" + "1";
    ContainsTest(key);
  }

  lemma ContainsTest(key: string)
    requires key == "RTA" + "_" + "test9" + "_" + "1"
    ensures Contains(Lower(key), "test")
  {
    assert Lower(key)[4..8] == "test";
    assert PartAt(Lower(key), "test", 4);
  }

  /** A first visit is always safe: with no backup of B there are no parameters in B, so the key there is short and A's
      files come back. */
  lemma FirstVisitComesBack(pos: Pos, names: seq<string>, read: ParamsReader, a: string, b: string)
    requires Distinct(names) && PARAMS.name in names && CurrentKey(pos, read) == Some(a) && BacksUp(pos, a) && a != b
    requires forall name | name in names :: Path(Backup(b), name) !in pos.files
    ensures var there := Switched(pos, names, a, b);
      CurrentKey(there, read) == Some(EnvironOf(b))
      && SameFiles(Switched(there, names, EnvironOf(b), a).files, pos.files, names, Live, Live)
  {
    var there := Switched(pos, names, a, b);
    SwitchEffect(pos, names, a, b, PARAMS);
    EnvironIsShort(b);
    ThereAndBackExactlyWhen(pos, names, a, b, EnvironOf(b));
  }

  lemma {:induction false} NoUnderscore(s: string)
    requires '_' !in s
    ensures Underscores(s) == 0
  {
    if s != "" { NoUnderscore(s[..|s| - 1]); }
  }

  lemma OneUnderscore(s: string, t: string)
    requires '_' !in s && '_' !in t
    ensures Underscores(s + "_" + t) == 1
  {
    NoUnderscore(s);
    NoUnderscore(t);
    CountPrefix(s, '_');
    CountTail(s + "_", t);
  }

  lemma EnvironIsShort(key: string)
    ensures ShortKey(EnvironOf(key))
  {
    hide Contains, Underscores, Lower;
    NoUnderscore("RTA");
    OneUnderscore("RTA", "TEST");
    OneUnderscore("RTA", "UAT");
    assert "RTA" + "_" + "TEST" == "RTA_TEST" && "RTA" + "_" + "UAT" == "RTA_UAT";
  }

  lemma CountPrefix(s: string, c: char)
    ensures Underscores(s + [c]) == Underscores(s) + if c == '_' then 1 else 0
  {
    assert (s + [c])[..|s|] == s;
  }

  lemma {:induction false} CountTail(s: string, t: string)
    ensures Underscores(s + t) == Underscores(s) + Underscores(t)
  {
    if t == "" {
      assert s + t == s;
    } else {
      CountTail(s, t[..|t| - 1]);
      assert (s + t)[..|s + t| - 1] == s + t[..|t| - 1];
    }
  }

  /** A key built from known parameters is always long enough to be backed up. */
  lemma KnownParamsAreBackedUp(pos: Pos, read: ParamsReader)
    requires PARAMS in pos.files && CurrentKey(pos, read).Some?
    ensures !ShortKey(CurrentKey(pos, read).value)
  {
    var (vendor, org) := read(pos.files[PARAMS]).value;
    CountTail(pos.environ + "_" + vendor + "_", org);
    CountPrefix(pos.environ + "_" + vendor, '_');
    CountTail(pos.environ + "_", vendor);
    CountPrefix(pos.environ, '_');
  }

  /** Which switches save the files in place: those from a key of three parts or more, unless a restore is
      unfinished. */
  lemma BacksUpExactlyWhen(pos: Pos, key: string)
    ensures BacksUp(pos, key) <==>
      pos.backupStatus != 2 && exists i, j :: 0 <= i < j < |key| && key[i] == '_' && key[j] == '_'
  {
    UnderscorePairs(key);
  }

  lemma {:induction false} UnderscorePairs(s: string)
    ensures Underscores(s) >= 1 <==> exists i :: 0 <= i < |s| && s[i] == '_'
    ensures Underscores(s) >= 2 <==> exists i, j :: 0 <= i < j < |s| && s[i] == '_' && s[j] == '_'
  {
    if s != "" {
      var n := |s| - 1;
      UnderscorePairs(s[..n]);
      assert forall i | 0 <= i < n :: s[..n][i] == s[i];
      if i :| 0 <= i < |s[..n]| && s[..n][i] == '_' { assert s[i] == '_'; }
      if i, j :| 0 <= i < j < |s[..n]| && s[..n][i] == '_' && s[..n][j] == '_' {
        assert s[i] == '_' && s[j] == '_';
      }
      if i, j :| 0 <= i < j < |s| && s[i] == '_' && s[j] == '_' { assert s[..n][i] == '_'; }
    }
  }

  /** A switch that does not back up first discards the files in place: nothing holds them afterwards. */
  lemma UnsavedSwitchDiscards(pos: Pos, names: seq<string>, current: string, target: string, name: string)
    requires Distinct(names) && name in names && !BacksUp(pos, current)
    ensures var after := Switched(pos, names, current, target).files;
      && At(after, Path(Live, name)) == At(pos.files, Path(Backup(target), name))
      && forall k ::
           At(after, Path(Backup(k), name)) == if k == target then None else At(pos.files, Path(Backup(k), name))
  {
    SwitchEffect(pos, names, current, target, Path(Live, name));
    forall k ensures At(Switched(pos, names, current, target).files, Path(Backup(k), name))
      == if k == target then None else At(pos.files, Path(Backup(k), name))
    {
      SwitchEffect(pos, names, current, target, Path(Backup(k), name));
    }
  }

  /** Switching to the environment already in place changes no file of it. */
  lemma SwitchToSelfKeepsLive(pos: Pos, names: seq<string>, a: string, name: string)
    requires Distinct(names) && BacksUp(pos, a)
    ensures At(Switched(pos, names, a, a).files, Path(Live, name)) == At(pos.files, Path(Live, name))
  {
    SwitchEffect(pos, names, a, a, Path(Live, name));
  }

  /** A stale copy breaks the way back: when B's backup holds A's own parameters and B's environment is A's, the key
      computed in B is A's. A's backup is overwritten with B's files, so these come "back", and what A had under a name
      B lacks is in no place any more. */
  lemma StaleParamsLoseTheFiles(pos: Pos, names: seq<string>, read: ParamsReader, a: string, b: string, name: string)
    requires Distinct(names) && PARAMS.name in names && name in names && a != b && pos.backupStatus != 2
    requires PARAMS in pos.files && CurrentKey(pos, read) == Some(a)
    requires At(pos.files, Path(Backup(b), PARAMS.name)) == At(pos.files, PARAMS) && EnvironOf(b) == pos.environ
    requires forall k :: Path(Backup(k), name) !in pos.files
    ensures var there := Switched(pos, names, a, b); var back := Switched(there, names, a, a);
      && CurrentKey(there, read) == Some(a)
      && forall place :: At(back.files, Path(place, name)) == None
  {
    hide MoveAll, Distinct, ShortKey, EnvironOf;
    KnownParamsAreBackedUp(pos, read);
    var there := Switched(pos, names, a, b);
    SwitchEffect(pos, names, a, b, PARAMS);
    forall place ensures At(Switched(there, names, a, a).files, Path(place, name)) == None {
      SwitchEffect(there, names, a, a, Path(place, name));
      SwitchEffect(pos, names, a, b, Path(place, name));
      SwitchEffect(pos, names, a, b, Path(Live, name));
    }
  }

  const STALE_B := "RTA_TEST_9_2"

  /** Such a situation: the backup of B holds a copy of A's parameters and nothing else. */
  function StalePos(): Pos {
    Pos(map[PARAMS := "7/1", Path(Live, "database") := "sales", Path(Backup(STALE_B), "pos_params") := "7/1"],
      "RTA_TEST", 3)
  }

  lemma StaleParamsExample(read: ParamsReader, a: string)
    requires read("7/1") == Some(("7", "1")) && CurrentKey(StalePos(), read) == Some(a)
    ensures At(StalePos().files, Path(Live, "database")) == Some("sales")
    ensures var there := Switched(StalePos(), ["pos_params", "database"], a, STALE_B);
      && CurrentKey(there, read) == Some(a)
      && forall place :: At(Switched(there, ["pos_params", "database"], a, a).files, Path(place, "database")) == None
  {
    hide MoveAll;
    assert a == "RTA_TEST" + "_" + "7" + "_" + "1";
    assert a[|a| - 1] != STALE_B[|STALE_B| - 1];
    assert EnvironOf(STALE_B) == "RTA_TEST" by {
      assert Lower(STALE_B)[4..8] == "test";
      assert PartAt(Lower(STALE_B), "test", 4);
    }
    hide Switched, EnvironOf;
    StaleParamsLoseTheFiles(StalePos(), ["pos_params", "database"], read, a, STALE_B, "database");
  }

  function Count(names: seq<string>, name: string): nat {
    if names == [] then 0
    else
      var n := |names| - 1;
      Count(names[..n], name) + if names[n] == name then 1 else 0
  }

  /** For any list, repeated names included: a name listed once has its file moved, one listed twice or more has it
      lost, because a later move clears what an earlier one saved, and one not listed is not touched. */
  lemma {:induction false} MoveAllCounts(fs: Files, names: seq<string>, from: Place, to: Place, name: string)
    requires from != to
    ensures var moved, count := MoveAll(fs, names, from, to), Count(names, name);
      && At(moved, Path(to, name)) == (if count == 0 then At(fs, Path(to, name))
                                       else if count == 1 then At(fs, Path(from, name)) else None)
      && At(moved, Path(from, name)) == (if count == 0 then At(fs, Path(from, name)) else None)
  {
    if names != [] {
      var n := |names| - 1;
      MoveAllCounts(fs, names[..n], from, to, name);
      var before, source, target := MoveAll(fs, names[..n], from, to), Path(from, names[n]), Path(to, names[n]);
      CopyEffect(before, source, target, Path(to, name));
      CopyEffect(before, source, target, Path(from, name));
      hide CopyAnyFile, At;
    }
  }
}
