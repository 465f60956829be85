/** What a config means, said of its lines alone: each line that is no comment belongs to the section whose
    token is the last one before it. */
module ConfigMeaning {
  import opened Data
  import opened Str
  import opened Metadata
  import opened Backup
  import opened SearchTree

  predicate Ascii(s: string) { forall i :: 0 <= i < |s| ==> s[i] as int < 128 }

  function Text(s: string): (r: Bytes)
    requires Ascii(s)
    ensures |r| == |s|
  {
    seq(|s|, i requires 0 <= i < |s| => s[i] as int)
  }

  const CopyToken: Bytes := Text("[copy]")
  const MirrorToken: Bytes := Text("[mirror]")
  const TrackToken: Bytes := Text("[track]")
  const IgnoreToken: Bytes := Text("[ignore]")
  const SummarizeToken: Bytes := Text("[summarize]")

  predicate IsToken(line: Bytes) {
    line == CopyToken || line == MirrorToken || line == TrackToken || line == IgnoreToken || line == SummarizeToken
  }

  /** A line that says something: not blank, and not starting with "#". */
  predicate Speaks(line: Bytes) { (exists i :: 0 <= i < |line| && line[i] != 32 && line[i] != 9) && line[0] != 35 }

  /** The last token before a line. */
  function TokenOver(lines: seq<Bytes>, k: nat): (r: Option<Bytes>)
    requires k <= |lines|
    ensures r.Some? ==> exists j :: 0 <= j < k && lines[j] == r.value
  {
    if k == 0 then None
    else if IsToken(lines[k - 1]) then Some(lines[k - 1])
    else TokenOver(lines, k - 1)
  }

  predicate IsEntry(line: Bytes) { Speaks(line) && !IsToken(line) }

  /** A line that gives a path to a policy. */
  predicate IsPathUnder(lines: seq<Bytes>, k: nat, token: Bytes)
    requires k < |lines|
  {
    IsEntry(lines[k]) && TokenOver(lines, k) == Some(token)
  }

  // ----- tokens -----

  lemma {:induction false} TokensAreThose()
    ensures CopyToken == COPY && MirrorToken == MIRROR && TrackToken == TRACK && IgnoreToken == IGNORE && SummarizeToken == SUMMARIZE
  {
    assert "[copy]"[0] == '[' && "[copy]"[1] == 'c' && "[copy]"[2] == 'o' && "[copy]"[3] == 'p' && "[copy]"[4] == 'y' && "[copy]"[5] == ']';
  }

  /** The section that a token stands for. */
  lemma {:induction false} SectionsOfTokens()
    ensures Section(CopyToken) == Some(Copy) && Section(MirrorToken) == Some(Mirror) && Section(TrackToken) == Some(Track)
    ensures Section(IgnoreToken) == Some(Ignore) && Section(SummarizeToken) == Some(Summarize)
    ensures forall line :: Section(line).Some? <==> IsToken(line)
  {
    TokensAreThose();
    assert |COPY| == 6 && |MIRROR| == 8 && |TRACK| == 7 && |IGNORE| == 8 && |SUMMARIZE| == 11;
    assert MIRROR[1] != IGNORE[1];
  }

  lemma {:induction false} SpeaksIsNoComment(line: Bytes)
    ensures Speaks(line) <==> !Comment(line)
    ensures IsToken(line) ==> Speaks(line) && line[0] == 91
  {
    TokensAreThose();
    if IsToken(line) { assert line[0] == 91; }
  }

  // ----- lines -----

  predicate IsPathToken(t: Bytes) { t == CopyToken || t == MirrorToken || t == TrackToken }

  predicate DefinesAt(lines: seq<Bytes>, i: nat)
    requires i < |lines|
  {
    var t := TokenOver(lines, i);
    IsEntry(lines[i]) && t.Some? && IsPathToken(t.value)
  }

  /** What a line says ends up in the config, under the policy of its token. */
  predicate EntryMeans(lines: seq<Bytes>, i: nat, c: Config)
    requires i < |lines|
  {
    var line, t, path := lines[i], TokenOver(lines, i), StripSlashes(lines[i]);
    && t.Some?
    && (t.value == CopyToken ==> path in c.explicit && c.explicit[path] == Copy)
    && (t.value == MirrorToken ==> path in c.explicit && c.explicit[path] == Mirror)
    && (t.value == TrackToken ==> path in c.explicit && c.explicit[path] == Track)
    && (t.value == IgnoreToken ==> line in c.ignore)
    && (t.value == SummarizeToken ==> line in c.summarize)
  }

  predicate FromPath(lines: seq<Bytes>, k: nat, path: Bytes)
    requires k <= |lines|
  {
    exists i :: 0 <= i < k && DefinesAt(lines, i) && StripSlashes(lines[i]) == path
  }

  predicate FromLine(lines: seq<Bytes>, k: nat, token: Bytes, line: Bytes)
    requires k <= |lines|
  {
    exists i :: 0 <= i < k && IsEntry(lines[i]) && TokenOver(lines, i) == Some(token) && lines[i] == line
  }

  /** The config says what the first k lines say, and nothing else. */
  ghost predicate Means(lines: seq<Bytes>, k: nat, c: Config)
    requires k <= |lines|
  {
    && (forall i :: 0 <= i < k && IsEntry(lines[i]) ==> EntryMeans(lines, i, c))
    && (forall p :: p in c.explicit ==> FromPath(lines, k, p))
    && (forall l :: l in c.ignore ==> FromLine(lines, k, IgnoreToken, l))
    && (forall l :: l in c.summarize ==> FromLine(lines, k, SummarizeToken, l))
  }

  /** A line that can be read: an entry needs a token, must not look like one, and if it is a path it must be
      absolute and without dot elements. */
  predicate Acceptable(lines: seq<Bytes>, i: nat)
    requires i < |lines|
  {
    IsEntry(lines[i]) ==>
      && TokenOver(lines, i).Some? && !(lines[i][0] == 91 && lines[i][|lines[i]| - 1] == 93)
      && (DefinesAt(lines, i) ==> lines[i][0] == SLASH && !PathContainsDotElements(lines[i]))
  }

  ghost predicate Accepted(lines: seq<Bytes>, k: nat)
    requires k <= |lines|
  {
    && (forall i :: 0 <= i < k ==> Acceptable(lines, i))
    && (forall i, j :: 0 <= i < j < k && DefinesAt(lines, i) && DefinesAt(lines, j) ==> StripSlashes(lines[i]) != StripSlashes(lines[j]))
  }

  /** The section after some lines is that of the last token. */
  predicate Agrees(token: Option<Bytes>, section: Policy) {
    match token
    case None => section == NoPolicy
    case Some(t) => IsToken(t) && Section(t) == Some(section)
  }

  lemma {:induction false} ReadingOneMore(c: Config, lines: seq<Bytes>, k: nat)
    requires k < |lines|
    ensures ReadLines(c, lines[..k + 1]) ==
      var d := ReadLines(c, lines[..k]);
      if d.None? then None else ReadLine(d.value, lines[k])
    decreases k
  {
    hide ReadLine;
    if k == 0 {
      assert lines[..1][1..] == [] && lines[..0] == [];
    } else {
      assert lines[..k + 1][1..] == lines[1..][..k] && lines[..k][1..] == lines[1..][..k - 1];
      if ReadLine(c, lines[0]).Some? { ReadingOneMore(ReadLine(c, lines[0]).value, lines[1..], k - 1); }
    }
  }

  lemma {:induction false} TokenStep(lines: seq<Bytes>, k: nat)
    requires k < |lines|
    ensures TokenOver(lines, k + 1) == if IsToken(lines[k]) then Some(lines[k]) else TokenOver(lines, k)
  {
  }

  lemma {:induction false} KnownPaths(lines: seq<Bytes>, k: nat, c: Config, path: Bytes)
    requires k <= |lines| && Means(lines, k, c)
    ensures path in c.explicit <==> FromPath(lines, k, path)
  {
    hide StripSlashes, TokenOver, IsEntry;
    if FromPath(lines, k, path) {
      var i :| 0 <= i < k && DefinesAt(lines, i) && StripSlashes(lines[i]) == path;
      assert EntryMeans(lines, i, c);
    }
  }

  lemma {:induction false} AcceptedStep(lines: seq<Bytes>, k: nat, c: Config)
    requires k < |lines| && Accepted(lines, k) && Means(lines, k, c)
    ensures Accepted(lines, k + 1) <==>
      Acceptable(lines, k) && (DefinesAt(lines, k) ==> StripSlashes(lines[k]) !in c.explicit)
  {
    hide StripSlashes, Acceptable, DefinesAt, Means;
    var path := StripSlashes(lines[k]);
    KnownPaths(lines, k, c, path);
    if DefinesAt(lines, k) && FromPath(lines, k, path) {
      var i :| 0 <= i < k && DefinesAt(lines, i) && StripSlashes(lines[i]) == path;
      assert !Accepted(lines, k + 1);
    }
  }

  /** What reading one line does. */
  lemma {:induction false} LineIsRead(lines: seq<Bytes>, k: nat, c: Config)
    requires k < |lines| && Agrees(TokenOver(lines, k), c.section)
    ensures ReadLine(c, lines[k]).Some? <==> Acceptable(lines, k) && (DefinesAt(lines, k) ==> StripSlashes(lines[k]) !in c.explicit)
    ensures ReadLine(c, lines[k]).Some? ==>
      var d, line, t := ReadLine(c, lines[k]).value, lines[k], TokenOver(lines, k);
      && Agrees(TokenOver(lines, k + 1), d.section)
      && d.explicit == (if DefinesAt(lines, k) then c.explicit[StripSlashes(line) := c.section] else c.explicit)
      && d.ignore == (if IsEntry(line) && t == Some(IgnoreToken) then [line] + c.ignore else c.ignore)
      && d.summarize == (if IsEntry(line) && t == Some(SummarizeToken) then [line] + c.summarize else c.summarize)
  {
    hide PathContainsDotElements, StripSlashes, Comment, Speaks, Section, TokenOver, IsToken;
    var line := lines[k];
    SectionsOfTokens();
    SpeaksIsNoComment(line);
    TokenStep(lines, k);
    TokensDiffer();
    assert IsToken(CopyToken) && IsToken(MirrorToken) && IsToken(TrackToken) && IsToken(IgnoreToken) && IsToken(SummarizeToken) by { AllTokens(); }
    if TokenOver(lines, k).Some? { TokenIsOne(TokenOver(lines, k).value); }
  }

  lemma {:induction false} AllTokens()
    ensures IsToken(CopyToken) && IsToken(MirrorToken) && IsToken(TrackToken) && IsToken(IgnoreToken) && IsToken(SummarizeToken)
  {
  }

  lemma {:induction false} TokenIsOne(t: Bytes)
    requires IsToken(t)
    ensures IsPathToken(t) || t == IgnoreToken || t == SummarizeToken
  {
  }

  lemma {:induction false} TokensDiffer()
    ensures !IsPathToken(IgnoreToken) && !IsPathToken(SummarizeToken) && IgnoreToken != SummarizeToken
    ensures CopyToken != MirrorToken && CopyToken != TrackToken && MirrorToken != TrackToken
  {
    SectionsOfTokens();
  }

  lemma {:induction false} MeansStep(lines: seq<Bytes>, k: nat, c: Config, d: Config)
    requires k < |lines| && Means(lines, k, c) && Agrees(TokenOver(lines, k), c.section) && Acceptable(lines, k)
    requires DefinesAt(lines, k) ==> StripSlashes(lines[k]) !in c.explicit
    requires d.explicit == (if DefinesAt(lines, k) then c.explicit[StripSlashes(lines[k]) := c.section] else c.explicit)
    requires d.ignore == (if IsEntry(lines[k]) && TokenOver(lines, k) == Some(IgnoreToken) then [lines[k]] + c.ignore else c.ignore)
    requires d.summarize == (if IsEntry(lines[k]) && TokenOver(lines, k) == Some(SummarizeToken) then [lines[k]] + c.summarize else c.summarize)
    ensures Means(lines, k + 1, d)
  {
    hide PathContainsDotElements, StripSlashes, Section, TokenOver, IsToken, IsEntry;
    SectionsOfTokens();
    TokensDiffer();
    forall i | 0 <= i < k + 1 && IsEntry(lines[i]) ensures EntryMeans(lines, i, d) {
      if i < k {
        assert EntryMeans(lines, i, c);
      }
    }
    forall p | p in d.explicit ensures FromPath(lines, k + 1, p) {
      if p in c.explicit { assert FromPath(lines, k, p); }
    }
    forall l | l in d.ignore ensures FromLine(lines, k + 1, IgnoreToken, l) {
      if l in c.ignore { assert FromLine(lines, k, IgnoreToken, l); }
    }
    forall l | l in d.summarize ensures FromLine(lines, k + 1, SummarizeToken, l) {
      if l in c.summarize { assert FromLine(lines, k, SummarizeToken, l); }
    }
  }

  lemma {:induction false} PrefixMeans(lines: seq<Bytes>, k: nat)
    requires k <= |lines|
    ensures ReadLines(Nothing, lines[..k]).Some? <==> Accepted(lines, k)
    ensures ReadLines(Nothing, lines[..k]).Some? ==>
      var c := ReadLines(Nothing, lines[..k]).value; Means(lines, k, c) && Agrees(TokenOver(lines, k), c.section)
    decreases k
  {
    hide ReadLine, Means, Accepted, Acceptable, DefinesAt, Agrees, TokenOver, StripSlashes, IsEntry;
    if k == 0 {
      NothingMeans(lines);
    } else {
      PrefixMeans(lines, k - 1);
      ReadingOneMore(Nothing, lines, k - 1);
      var before := ReadLines(Nothing, lines[..k - 1]);
      if before.Some? {
        AcceptedStep(lines, k - 1, before.value);
        LineIsRead(lines, k - 1, before.value);
        if ReadLine(before.value, lines[k - 1]).Some? { MeansStep(lines, k - 1, before.value, ReadLine(before.value, lines[k - 1]).value); }
      } else {
        NotAccepted(lines, k - 1);
      }
    }
  }

  lemma {:induction false} NothingMeans(lines: seq<Bytes>)
    ensures Accepted(lines, 0) && Means(lines, 0, Nothing) && Agrees(TokenOver(lines, 0), Nothing.section)
    ensures ReadLines(Nothing, lines[..0]) == Some(Nothing)
  {
  }

  lemma {:induction false} NotAccepted(lines: seq<Bytes>, k: nat)
    requires k < |lines| && !Accepted(lines, k)
    ensures !Accepted(lines, k + 1)
  {
    hide Acceptable, DefinesAt, StripSlashes;
  }

  /** Dot elements, one element at a time. */
  lemma {:induction false} DotElements(base: Bytes, name: Bytes)
    requires !EndsWithSlash(base) && !HasSlash(name)
    ensures PathContainsDotElements(base + [47] + name) <==>
      name == [46] || name == [46, 46] || (base != [] && PathContainsDotElements(base))
  {
    hide Split;
    SplitAppend(base, name);
    assert base + [47] + name == AppendPath(base, name);
  }

  // ----- configs -----

  /** The lines of a config, behind a byte order mark. */
  function LinesOf(config: Bytes): seq<Bytes> {
    Lines(if |config| >= 3 && config[..3] == [0xEF, 0xBB, 0xBF] then config[3..] else config)
  }

  /** What a config means. It can be read exactly if it has no null byte, every line is acceptable where it
      stands, and no path is defined twice; then every path has the policy of the token over its line,
      and the two lists of expressions hold the lines under their tokens, and nothing else is there. */
  lemma {:induction false} ConfigMeans(config: Bytes)
    ensures var lines := LinesOf(config);
      && (ReadConfig(config).Some? <==> 0 !in config && Accepted(lines, |lines|))
      && (ReadConfig(config).Some? ==> Means(lines, |lines|, ReadConfig(config).value))
  {
    hide ReadLines, Lines, Accepted, Means;
    var lines := LinesOf(config);
    assert lines[..|lines|] == lines;
    PrefixMeans(lines, |lines|);
  }

  /** A token and one line under it. */
  lemma {:induction false} TwoLines(token: Bytes, line: Bytes)
    requires IsToken(token) && IsEntry(line) && 0 !in line && 10 !in line
    ensures LinesOf(token + [10] + line) == [token, line]
    ensures TokenOver([token, line], 1) == Some(token)
  {
    hide Lines;
    TokensAreThose();
    var config := token + [10] + line;
    assert config[0] == 91;
    assert config[..|token|] == token && config[|token|] == 10 && config[|token| + 1..] == line;
    assert 10 !in token;
    LinesFrom(config, |token|);
    LinesFrom(line, |line|);
    assert line[..|line|] == line;
    assert [token, line][0] == token;
    TokenStep([token, line], 0);
    assert [token] + [line] == [token, line];
  }

  lemma {:induction false} LinesFrom(s: Bytes, n: nat)
    requires s != [] && n <= |s| && (forall i :: 0 <= i < n ==> s[i] != 10) && (n < |s| ==> s[n] == 10)
    ensures Lines(s) == [s[..n]] + if n < |s| then Lines(s[n + 1..]) else []
  {
    hide LineEnd;
    LineEndIs(s, n);
    assert Lines(s) == [s[..n]] + Lines(if n < |s| then s[n + 1..] else []);
  }

  lemma {:induction false} LineEndIs(s: Bytes, n: nat)
    requires n <= |s| && (forall i :: 0 <= i < n ==> s[i] != 10) && (n < |s| ==> s[n] == 10)
    ensures LineEnd(s) == n
  {
    if n > 0 { LineEndIs(s[1..], n - 1); }
  }

  /** What two lines, the first of which is a token, say. */
  lemma {:induction false} UnderToken(token: Bytes, line: Bytes, c: Config)
    requires IsToken(token) && IsEntry(line) && Means([token, line], 2, c)
    requires TokenOver([token, line], 1) == Some(token)
    ensures EntryMeans([token, line], 1, c)
    ensures forall p :: p in c.explicit ==> IsPathToken(token) && p == StripSlashes(line)
    ensures forall l :: l in c.ignore ==> token == IgnoreToken && l == line
    ensures forall l :: l in c.summarize ==> token == SummarizeToken && l == line
    ensures (c.ignore != [] ==> token == IgnoreToken) && (c.summarize != [] ==> token == SummarizeToken)
  {
    hide StripSlashes, TokenOver, IsToken, Speaks;
    var lines := [token, line];
    assert !IsEntry(lines[0]) && lines[1] == line;
    forall p | p in c.explicit ensures IsPathToken(token) && p == StripSlashes(line) { assert FromPath(lines, 2, p); }
    forall l | l in c.ignore ensures token == IgnoreToken && l == line { assert FromLine(lines, 2, IgnoreToken, l); }
    forall l | l in c.summarize ensures token == SummarizeToken && l == line { assert FromLine(lines, 2, SummarizeToken, l); }
    if c.ignore != [] { assert c.ignore[0] in c.ignore; }
    if c.summarize != [] { assert c.summarize[0] in c.summarize; }
  }

  lemma {:induction false} TwoLinesAccepted(token: Bytes, line: Bytes)
    requires IsToken(token) && IsEntry(line) && TokenOver([token, line], 1) == Some(token)
    requires !(line[0] == 91 && line[|line| - 1] == 93)
    requires IsPathToken(token) ==> line[0] == SLASH && !PathContainsDotElements(line)
    ensures Accepted([token, line], 2)
  {
    hide StripSlashes, TokenOver, IsToken, Speaks, PathContainsDotElements;
    var lines := [token, line];
    assert !IsEntry(lines[0]) && lines[1] == line;
    assert Acceptable(lines, 0) && Acceptable(lines, 1);
  }

  lemma {:induction false} OneEntry(token: Bytes, line: Bytes)
    requires IsToken(token) && IsEntry(line) && 0 !in line && 10 !in line
    requires !(line[0] == 91 && line[|line| - 1] == 93)
    requires IsPathToken(token) ==> line[0] == SLASH && !PathContainsDotElements(line)
    ensures ReadConfig(token + [10] + line).Some?
    ensures var c := ReadConfig(token + [10] + line).value;
      && EntryMeans([token, line], 1, c) && TokenOver([token, line], 1) == Some(token)
      && (forall p :: p in c.explicit ==> IsPathToken(token) && p == StripSlashes(line))
      && (forall l :: l in c.ignore ==> token == IgnoreToken && l == line)
      && (forall l :: l in c.summarize ==> token == SummarizeToken && l == line)
      && (c.ignore != [] ==> token == IgnoreToken) && (c.summarize != [] ==> token == SummarizeToken)
  {
    hide ReadConfig, PathContainsDotElements, StripSlashes, TokenOver, IsToken, LinesOf, Means, Accepted, EntryMeans, IsEntry, IsPathToken;
    var config := token + [10] + line;
    TwoLines(token, line);
    TokenHasNoNull(token);
    TwoLinesAccepted(token, line);
    ConfigMeans(config);
    UnderToken(token, line, ReadConfig(config).value);
  }

  lemma {:induction false} TokenHasNoNull(token: Bytes)
    requires IsToken(token)
    ensures 0 !in token
  {
    TokensAreThose();
  }

  lemma {:induction false} PathSpeaks(line: Bytes)
    requires |line| > 0 && line[0] == SLASH
    ensures IsEntry(line)
  {
    TokensAreThose();
  }

  predicate GivesOnly(config: Bytes, path: Bytes, policy: Policy) {
    var c := ReadConfig(config);
    c.Some? && c.value.explicit == map[path := policy] && c.value.ignore == [] && c.value.summarize == []
  }

  predicate CollectsOnly(config: Bytes, ignore: set<Bytes>, summarize: set<Bytes>) {
    var c := ReadConfig(config);
    && c.Some? && c.value.explicit == map[]
    && (set l | l in c.value.ignore) == ignore && (set l | l in c.value.summarize) == summarize
  }

  /** A path under a token has the policy of the token. */
  lemma {:induction false} TokenGivesPolicy(line: Bytes)
    requires |line| > 0 && line[0] == SLASH && !PathContainsDotElements(line) && 0 !in line && 10 !in line
    ensures GivesOnly(CopyToken + [10] + line, StripSlashes(line), Copy)
    ensures GivesOnly(MirrorToken + [10] + line, StripSlashes(line), Mirror)
    ensures GivesOnly(TrackToken + [10] + line, StripSlashes(line), Track)
  {
    hide ReadConfig, PathContainsDotElements, StripSlashes, Text, TokenOver, Speaks;
    AllTokens();
    TokensDiffer();
    PathSpeaks(line);
    OneEntry(CopyToken, line);
    OneEntry(MirrorToken, line);
    OneEntry(TrackToken, line);
  }

  /** An expression under a token ends up in its list. */
  lemma {:induction false} TokenCollects(line: Bytes)
    requires IsEntry(line) && !(line[0] == 91 && line[|line| - 1] == 93) && 0 !in line && 10 !in line
    ensures CollectsOnly(IgnoreToken + [10] + line, {line}, {})
    ensures CollectsOnly(SummarizeToken + [10] + line, {}, {line})
  {
    hide ReadConfig, Text, TokenOver, Speaks;
    AllTokens();
    TokensDiffer();
    OneEntry(IgnoreToken, line);
    OneEntry(SummarizeToken, line);
  }
}
