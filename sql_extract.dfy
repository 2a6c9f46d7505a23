/** `extract_sql_query`: pulls one SQL statement out of a language model's
    free-form answer. After dropping everything up to the first `</think>`,
    three stages are tried in order: a fenced ```sql block, a statement
    labelled `SQL query:` that starts with `SELECT `, and the whole trimmed
    text. The two copies of the function in the repository are identical. */
module SqlExtract {
  import opened Wrappers
  import opened Text

  const ThinkEnd := "</think>"
  /** Opening of a fenced block; the regex matches it ignoring case. */
  const FenceOpen := "```sql"
  const Fence := "```"
  /** `SQL query:`, matched ignoring case. */
  const QueryLabel := "sql query:"
  /** `SELECT ` with its trailing space, matched ignoring case. */
  const SelectWord := "select "

  /** `text.find("</think>")`, and when found the text after the tag. */
  function AfterThink(text: string): (r: string)
    ensures |r| <= |text| && r == text[|text| - |r|..]
  {
    FindFirst(text, ThinkEnd, 0, false);
    match Find(text, ThinkEnd, 0, false)
    case None => text
    case Some(k) => text[k + |ThinkEnd|..]
  }

  predicate OpensAt(t: string, i: int) {
    MatchAt(t, i, FenceOpen, true)
  }

  predicate ClosesAt(t: string, c: int) {
    MatchAt(t, c, Fence, false)
  }

  /** The leftmost match of ```` ```sql\s*(.*?)\s*``` ````: the index of its
      opening and of its closing fence, the first fence after the opening.
      `FencedBlockFirst` proves it. */
  function FencedBlock(t: string): (r: Option<(nat, nat)>)
    ensures r.Some? ==> r.value.0 + |FenceOpen| <= r.value.1 <= |t|
  {
    match Find(t, FenceOpen, 0, true)
    case None => None
    case Some(i) =>
      match Find(t, Fence, i + |FenceOpen|, false)
      case None => None
      case Some(c) => Some((i, c))
  }

  /** The block opens at the first ```` ```sql ```` and closes at the first
      ```` ``` ```` after it; there is none exactly when no opening is
      followed by a closing fence. */
  lemma FencedBlockFirst(t: string)
    ensures var r := FencedBlock(t);
      && (r.Some? ==> OpensAt(t, r.value.0) && r.value.0 + |FenceOpen| <= r.value.1 && ClosesAt(t, r.value.1))
      && (r.Some? ==> forall i :: 0 <= i < r.value.0 ==> !OpensAt(t, i))
      && (r.Some? ==> forall c :: r.value.0 + |FenceOpen| <= c < r.value.1 ==> !ClosesAt(t, c))
      && (r.None? ==> forall i, c :: OpensAt(t, i) && i + |FenceOpen| <= c ==> !ClosesAt(t, c))
  {
    FindFirst(t, FenceOpen, 0, true);
    if Find(t, FenceOpen, 0, true).Some? {
      FindFirst(t, Fence, Find(t, FenceOpen, 0, true).value + |FenceOpen|, false);
    }
  }

  /** `SQL query:\s*(SELECT .*?;)` matched at index `i`: the bounds of its
      group, from after the tag and the whitespace run to just past the
      first `;` after `SELECT `. */
  function StatementAt(t: string, i: nat): (r: Option<(nat, nat)>)
    ensures r.Some? ==> r.value.0 + |SelectWord| < r.value.1 <= |t|
  {
    if !MatchAt(t, i, QueryLabel, true) then None
    else
      var j := SkipSpace(t, i + |QueryLabel|);
      if !MatchAt(t, j, SelectWord, true) then None
      else
        match Find(t, ";", j + |SelectWord|, false)
        case None => None
        case Some(k) => Some((j, k + 1))
  }

  /** The leftmost index at or after `from` where the labelled-statement
      pattern matches. `FirstStatementFirst` proves it. */
  function FirstStatement(t: string, from: nat): (r: Option<nat>)
    ensures r.Some? ==> StatementAt(t, r.value).Some?
    decreases |t| - from
  {
    if from + |QueryLabel| > |t| then None
    else if StatementAt(t, from).Some? then Some(from)
    else FirstStatement(t, from + 1)
  }

  /** `FirstStatement` returns a match with none before it, and nothing
      only when the pattern matches nowhere from `from` on. */
  lemma FirstStatementFirst(t: string, from: nat)
    ensures var r := FirstStatement(t, from);
      && (r.Some? ==> from <= r.value && StatementAt(t, r.value).Some?)
      && (r.Some? ==> forall i :: from <= i < r.value ==> StatementAt(t, i).None?)
      && (r.None? ==> forall i :: from <= i ==> StatementAt(t, i).None?)
  {
    if FirstStatement(t, from).Some? {
      FirstStatementFound(t, from);
    } else {
      FirstStatementMissing(t, from);
    }
  }

  lemma {:induction false} FirstStatementFound(t: string, from: nat)
    requires FirstStatement(t, from).Some?
    ensures var k := FirstStatement(t, from).value;
      from <= k && forall i :: from <= i < k ==> StatementAt(t, i).None?
    decreases |t| - from
  {
    if StatementAt(t, from).None? {
      FirstStatementFound(t, from + 1);
    }
  }

  lemma {:induction false} FirstStatementMissing(t: string, from: nat)
    requires FirstStatement(t, from).None?
    ensures forall i :: from <= i ==> StatementAt(t, i).None?
    decreases |t| - from
  {
    if from + |QueryLabel| > |t| {
      forall i | from <= i ensures StatementAt(t, i).None? {
        assert !MatchAt(t, i, QueryLabel, true);
      }
    } else {
      FirstStatementMissing(t, from + 1);
    }
  }

  predicate IsSlice(r: string, t: string) {
    exists a, b :: 0 <= a <= b <= |t| && t[a..b] == r
  }

  /** `Strip` of a slice is a slice. */
  lemma StripSlice(t: string, x: nat, y: nat)
    requires x <= y <= |t|
    ensures IsSlice(Strip(t[x..y]), t)
  {
    var l := LeadingSpace(t[x..y]);
    var n := |Strip(t[x..y])|;
    StripBody(t[x..y]);
    SliceOfSlice(t, x, y, l, l + n);
  }

  /** The three stages on text the `</think>` step has already cut. */
  function FromStages(t: string): (r: string)
    ensures Trimmed(r)
  {
    match FencedBlock(t)
    case Some(block) => Strip(t[block.0 + |FenceOpen|..block.1])
    case None =>
      match FirstStatement(t, 0)
      case Some(i) =>
        var group := StatementAt(t, i).value;
        Strip(t[group.0..group.1])
      case None => Strip(t)
  }

  /** Every stage returns a piece of its input. */
  lemma FromStagesSlice(t: string)
    ensures IsSlice(FromStages(t), t)
  {
    FencedBlockFirst(t);
    match FencedBlock(t)
    case Some(block) =>
      StripSlice(t, block.0 + |FenceOpen|, block.1);
    case None =>
      FirstStatementFirst(t, 0);
      match FirstStatement(t, 0)
      case Some(i) =>
        var group := StatementAt(t, i).value;
        GroupShape(t, i, group.0, group.1);
        StripSlice(t, group.0, group.1);
      case None =>
        StripSlice(t, 0, |t|);
        assert t[0..|t|] == t;
  }

  /** `extract_sql_query(text)`: its result never starts or ends with
      whitespace and is always a piece of the input, never invented text. */
  function ExtractSql(text: string): (r: string)
    ensures Trimmed(r)
    ensures IsSlice(r, text)
  {
    var t := AfterThink(text);
    FromStagesSlice(t);
    SliceOfSuffix(FromStages(t), t, text);
    FromStages(t)
  }

  lemma SliceOfSuffix(r: string, t: string, text: string)
    requires IsSlice(r, t) && |t| <= |text| && t == text[|text| - |t|..]
    ensures IsSlice(r, text)
  {
    var a, b :| 0 <= a <= b <= |t| && t[a..b] == r;
    var off := |text| - |t|;
    assert text[off + a..off + b] == t[a..b];
  }

  /** Everything up to and including the first `</think>` is discarded
      before any stage looks at the text. */
  lemma ThinkPrefixDiscarded(a: string, b: string)
    requires forall k :: !MatchAt(a, k, ThinkEnd, false)
    ensures ExtractSql(a + ThinkEnd + b) == FromStages(b)
  {
    var text := a + ThinkEnd + b;
    assert MatchAt(text, |a|, ThinkEnd, false) by {
      assert text[|a|..|a| + |ThinkEnd|] == ThinkEnd;
    }
    assert text[0..|a|] == a;
    assert ThinkEnd == ['<', '/', 't', 'h', 'i', 'n', 'k', '>'];
    forall m | 0 <= m < |a| ensures !MatchAt(text, m, ThinkEnd, false) {
      if m + |ThinkEnd| <= |a| {
        MatchInPiece(text, 0, a, m, ThinkEnd, false);
      } else {
        var p := |a| - m;
        assert text[m + p] == '<';
        assert !CharMatches(text[m + p], ThinkEnd[p], false);
      }
    }
    FindIs(text, ThinkEnd, 0, |a|, false);
    assert text[|a| + |ThinkEnd|..] == b;
  }

  /** Without a `</think>` tag the whole text goes to the stages. */
  lemma NoThinkKeepsText(text: string)
    requires forall k :: !MatchAt(text, k, ThinkEnd, false)
    ensures ExtractSql(text) == FromStages(text)
  {
    FindNone(text, ThinkEnd, 0, false);
  }

  /** The leftmost opening and the first fence after it fix the block. */
  lemma FencedBlockIs(t: string, i: nat, c: nat)
    requires OpensAt(t, i) && i + |FenceOpen| <= c && ClosesAt(t, c)
    requires forall i' :: 0 <= i' < i ==> !OpensAt(t, i')
    requires forall c' :: i + |FenceOpen| <= c' < c ==> !ClosesAt(t, c')
    ensures FencedBlock(t) == Some((i, c))
  {
    forall m | 0 <= m < i ensures !MatchAt(t, m, FenceOpen, true) {
      assert !OpensAt(t, m);
    }
    forall m | i + |FenceOpen| <= m < c ensures !MatchAt(t, m, Fence, false) {
      assert !ClosesAt(t, m);
    }
    FindIs(t, FenceOpen, 0, i, true);
    FindIs(t, Fence, i + |FenceOpen|, c, false);
  }

  /** When there is a fenced block, the first stage decides. */
  lemma FenceStage(t: string, i: nat, c: nat)
    requires FencedBlock(t) == Some((i, c)) && i + |FenceOpen| <= c <= |t|
    ensures FromStages(t) == Strip(t[i + |FenceOpen|..c])
  {
  }

  /** A fenced block wins: when ```sql (in any case) first occurs at `i`
      and ``` first occurs again at `c`, the result is the text between
      them, trimmed, whatever a `SQL query:` tag elsewhere says. */
  lemma FencedBlockWins(t: string, i: nat, c: nat)
    requires OpensAt(t, i) && forall i' :: 0 <= i' < i ==> !OpensAt(t, i')
    requires i + |FenceOpen| <= c && ClosesAt(t, c)
    requires forall c' :: i + |FenceOpen| <= c' < c ==> !ClosesAt(t, c')
    ensures FromStages(t) == Strip(t[i + |FenceOpen|..c])
  {
    FencedBlockIs(t, i, c);
    FenceStage(t, i, c);
  }

  /** An opening fence with no ``` after it is not a block, and then no
      later opening is either. */
  lemma UnclosedFenceIsNoBlock(t: string, i: nat)
    requires OpensAt(t, i) && forall i' :: 0 <= i' < i ==> !OpensAt(t, i')
    requires forall c :: i + |FenceOpen| <= c ==> !ClosesAt(t, c)
    ensures FencedBlock(t).None?
  {
    forall m | 0 <= m < i ensures !MatchAt(t, m, FenceOpen, true) {
      assert !OpensAt(t, m);
    }
    forall m | i + |FenceOpen| <= m ensures !MatchAt(t, m, Fence, false) {
      assert !ClosesAt(t, m);
    }
    FindIs(t, FenceOpen, 0, i, true);
    FindNone(t, Fence, i + |FenceOpen|, false);
  }

  /** The statement pattern at `o` from its three parts. */
  lemma StatementAtParts(t: string, o: nat, j: nat, k: nat)
    requires MatchAt(t, o, QueryLabel, true)
    requires o + |QueryLabel| <= |t| && SkipSpace(t, o + |QueryLabel|) == j
    requires MatchAt(t, j, SelectWord, true)
    requires Find(t, ";", j + |SelectWord|, false) == Some(k)
    ensures StatementAt(t, o) == Some((j, k + 1))
  {
  }

  /** A stretch without `;` holds no match of the `;` literal. */
  lemma NoSemicolonMatch(t: string, a: nat, b: nat)
    requires b <= |t|
    requires forall m :: a <= m < b ==> t[m] != ';'
    ensures forall m :: a <= m < b ==> !MatchAt(t, m, ";", false)
  {
    forall m | a <= m < b ensures !MatchAt(t, m, ";", false) {
      assert !CharMatches(t[m + 0], ";"[0], false);
    }
  }

  /** The statement pattern at a `SQL query:` tag at `o`, followed by the
      whitespace run up to `j`, `SELECT ` at `j` and the first `;` after it
      at `k`: the group runs from `j` to just past `k`. */
  lemma StatementAtIs(t: string, o: nat, j: nat, k: nat)
    requires MatchAt(t, o, QueryLabel, true)
    requires o + |QueryLabel| <= j <= |t| && forall m :: o + |QueryLabel| <= m < j ==> IsSpace(t[m])
    requires MatchAt(t, j, SelectWord, true)
    requires j + |SelectWord| <= k && MatchAt(t, k, ";", false)
    requires forall m :: j + |SelectWord| <= m < k ==> t[m] != ';'
    ensures StatementAt(t, o) == Some((j, k + 1))
  {
    assert CharMatches(t[j + 0], SelectWord[0], true);
    assert SelectWord[0] == 's';
    SkipSpaceIs(t, o + |QueryLabel|, j);
    NoSemicolonMatch(t, j + |SelectWord|, k);
    FindIs(t, ";", j + |SelectWord|, k, false);
    StatementAtParts(t, o, j, k);
  }

  /** Without a fenced block the leftmost statement match decides. */
  lemma StatementStage(t: string, i: nat, j: nat, e: nat)
    requires FencedBlock(t).None?
    requires FirstStatement(t, 0) == Some(i) && StatementAt(t, i) == Some((j, e))
    ensures j <= e <= |t|
    ensures FromStages(t) == Strip(t[j..e])
  {
    GroupShape(t, i, j, e);
  }

  /** A statement match with none before it is the leftmost one. */
  lemma FirstStatementIs(t: string, i: nat)
    requires StatementAt(t, i).Some?
    requires forall m :: 0 <= m < i ==> StatementAt(t, m).None?
    ensures FirstStatement(t, 0) == Some(i)
  {
    FirstStatementFirst(t, 0);
  }

  /** The group of a statement match is `SELECT `, text without `;`, and
      the `;`. */
  lemma GroupShape(t: string, i: nat, j: nat, e: nat)
    requires StatementAt(t, i) == Some((j, e))
    ensures j + |SelectWord| < e <= |t|
    ensures MatchAt(t, j, SelectWord, true) && t[e - 1] == ';'
    ensures forall m :: j + |SelectWord| <= m < e - 1 ==> t[m] != ';'
  {
    var k := e - 1;
    FindFirst(t, ";", j + |SelectWord|, false);
    assert MatchAt(t, k, ";", false);
    assert CharMatches(t[k + 0], ";"[0], false);
    forall m | j + |SelectWord| <= m < k ensures t[m] != ';' {
      assert !MatchAt(t, m, ";", false);
    }
  }

  /** `SELECT ` through the first `;` after it is already trimmed. */
  lemma GroupTrimmed(t: string, j: nat, e: nat)
    requires j + |SelectWord| < e <= |t|
    requires MatchAt(t, j, SelectWord, true) && t[e - 1] == ';'
    ensures Strip(t[j..e]) == t[j..e]
  {
    var s := t[j..e];
    assert CharMatches(t[j + 0], SelectWord[0], true);
    assert SelectWord[0] == 's';
    assert s[0] == t[j] && s[|s| - 1] == t[e - 1];
    StripTrimmed(s);
  }

  /** Without an opening followed by a closing fence there is no block. */
  lemma NoFenceBlock(t: string)
    requires forall i, c :: OpensAt(t, i) && i + |FenceOpen| <= c ==> !ClosesAt(t, c)
    ensures FencedBlock(t).None?
  {
    FencedBlockFirst(t);
  }

  /** No `SQL query:` tag before `o` means no statement match before it. */
  lemma NoStatementBefore(t: string, o: nat)
    requires forall i :: 0 <= i < o ==> !MatchAt(t, i, QueryLabel, true)
    ensures forall m :: 0 <= m < o ==> StatementAt(t, m).None?
  {
  }

  /** The first statement match is the one at the first `SQL query:` tag
      that the rest of the pattern follows. */
  lemma LabelledMatch(t: string, o: nat, j: nat, k: nat)
    requires MatchAt(t, o, QueryLabel, true)
    requires forall i :: 0 <= i < o ==> !MatchAt(t, i, QueryLabel, true)
    requires o + |QueryLabel| <= j <= |t| && forall m :: o + |QueryLabel| <= m < j ==> IsSpace(t[m])
    requires MatchAt(t, j, SelectWord, true)
    requires j + |SelectWord| <= k && MatchAt(t, k, ";", false)
    requires forall m :: j + |SelectWord| <= m < k ==> t[m] != ';'
    ensures FirstStatement(t, 0) == Some(o) && StatementAt(t, o) == Some((j, k + 1))
  {
    StatementAtIs(t, o, j, k);
    NoStatementBefore(t, o);
    FirstStatementIs(t, o);
  }

  lemma SemicolonAt(t: string, k: nat)
    requires MatchAt(t, k, ";", false)
    ensures t[k] == ';'
  {
    assert CharMatches(t[k + 0], ";"[0], false);
  }

  /** Without a fenced block, the first `SQL query:` tag at `o`, whitespace
      up to `j`, `SELECT ` at `j` and the first `;` after it at `k` give
      the statement from `SELECT` through that `;`, not trimmed further. */
  lemma LabelledStatementWins(t: string, o: nat, j: nat, k: nat)
    requires forall i, c :: OpensAt(t, i) && i + |FenceOpen| <= c ==> !ClosesAt(t, c)
    requires MatchAt(t, o, QueryLabel, true)
    requires forall i :: 0 <= i < o ==> !MatchAt(t, i, QueryLabel, true)
    requires o + |QueryLabel| <= j <= |t| && forall m :: o + |QueryLabel| <= m < j ==> IsSpace(t[m])
    requires MatchAt(t, j, SelectWord, true)
    requires j + |SelectWord| <= k && MatchAt(t, k, ";", false)
    requires forall m :: j + |SelectWord| <= m < k ==> t[m] != ';'
    ensures FromStages(t) == t[j..k + 1]
  {
    LabelledMatch(t, o, j, k);
    NoFenceBlock(t);
    StatementStage(t, o, j, k + 1);
    SemicolonAt(t, k);
    GroupTrimmed(t, j, k + 1);
  }

  /** A statement group read from the text, `SELECT ` (in some case), then
      text without `;`, then the one `;` that ends it. */
  lemma GroupText(t: string, j: nat, e: nat)
    requires j + |SelectWord| < e <= |t|
    requires MatchAt(t, j, SelectWord, true) && t[e - 1] == ';'
    requires forall m :: j + |SelectWord| <= m < e - 1 ==> t[m] != ';'
    ensures var r := t[j..e];
      && MatchAt(r, 0, SelectWord, true)
      && r[|r| - 1] == ';'
      && forall m :: 0 <= m < |r| - 1 ==> r[m] != ';'
  {
    var s := t[j..e];
    assert SelectWord == ['s', 'e', 'l', 'e', 'c', 't', ' '];
    forall m | 0 <= m < |s| - 1 ensures s[m] != ';' {
      assert s[m] == t[j + m];
      if m < |SelectWord| {
        assert CharMatches(t[j + m], SelectWord[m], true);
      }
    }
    MatchInPiece(t, j, s, 0, SelectWord, true);
  }

  /** The labelled stage yields `SELECT ` (in some case), then text without
      `;`, then the one `;` that ends it. */
  lemma StatementShape(t: string)
    requires FencedBlock(t).None? && FirstStatement(t, 0).Some?
    ensures var r := FromStages(t);
      && MatchAt(r, 0, SelectWord, true)
      && r[|r| - 1] == ';'
      && forall m :: 0 <= m < |r| - 1 ==> r[m] != ';'
  {
    var i := FirstStatement(t, 0).value;
    var group := StatementAt(t, i).value;
    var j, e := group.0, group.1;
    GroupShape(t, i, j, e);
    assert FromStages(t) == t[j..e] by {
      StatementStage(t, i, j, e);
      GroupTrimmed(t, j, e);
    }
    GroupText(t, j, e);
  }

  /** Text with neither an opening fence nor a `SQL query:` tag comes back
      whole, trimmed: there is no stage that looks for a bare `SELECT`. */
  lemma RawTextFallback(t: string)
    requires forall k :: !OpensAt(t, k)
    requires forall k :: !MatchAt(t, k, QueryLabel, true)
    ensures FromStages(t) == Strip(t)
  {
    FencedBlockFirst(t);
    FirstStatementFirst(t, 0);
  }

  /** A statement shown as the answers show it: in a ```sql fence on lines
      of its own. */
  function Fenced(sql: string): string {
    FenceOpen + "\n" + sql + "\n" + Fence + "\n\n"
  }

  /** Inside the fenced text the first closing fence is the one after the
      statement, when the statement holds none. */
  lemma FencedClosing(sql: string, rest: string)
    requires forall k :: !MatchAt(sql, k, Fence, false)
    ensures var t := Fenced(sql) + rest;
      var c := |FenceOpen| + 1 + |sql| + 1;
      && ClosesAt(t, c)
      && forall c' :: |FenceOpen| <= c' < c ==> !ClosesAt(t, c')
  {
    var t := Fenced(sql) + rest;
    var o := |FenceOpen| + 1;
    var c := o + |sql| + 1;
    assert t[..o] == FenceOpen + "\n";
    assert t[o..o + |sql|] == sql;
    assert t[o + |sql|] == '\n';
    assert t[c..c + 3] == Fence;
    assert MatchAt(t, c, Fence, false) by {
      MatchAtAll(t, c, Fence, false);
    }
    forall c' | |FenceOpen| <= c' < c ensures !ClosesAt(t, c') {
      if c' == |FenceOpen| {
        assert t[c'] == '\n';
        assert !CharMatches(t[c' + 0], Fence[0], false);
      } else if c' + |Fence| <= o + |sql| {
        MatchInPiece(t, o, sql, c' - o, Fence, false);
      } else if c' + |Fence| <= |t| {
        var q := o + |sql| - c';
        assert 0 <= q < |Fence|;
        assert t[c' + q] == '\n';
        MatchAtAll(t, c', Fence, false);
        assert !CharMatches(t[c' + q], Fence[q], false);
      }
    }
  }

  /** A text that starts with ```sql opens a block at 0. */
  lemma OpensAtStart(t: string)
    requires |FenceOpen| <= |t| && t[..|FenceOpen|] == FenceOpen
    ensures OpensAt(t, 0)
  {
    forall m | 0 <= m < |FenceOpen| ensures CharMatches(t[0 + m], FenceOpen[m], true) {
      assert t[m] == t[..|FenceOpen|][m];
    }
    MatchAtAll(t, 0, FenceOpen, true);
  }

  /** The fenced text opens with the fence and holds the statement,
      framed by newlines, up to the closing fence. */
  lemma FencedLayout(sql: string, rest: string)
    ensures var t := Fenced(sql) + rest;
      && |FenceOpen| <= |t| && t[..|FenceOpen|] == FenceOpen
      && |FenceOpen| + 1 + |sql| + 1 <= |t|
      && t[|FenceOpen|..|FenceOpen| + 1 + |sql| + 1] == "\n" + sql + "\n"
  {
    var t := Fenced(sql) + rest;
    var inner := "\n" + sql + "\n";
    assert t == FenceOpen + inner + (Fence + "\n\n" + rest);
    Middle(FenceOpen, inner, Fence + "\n\n" + rest);
  }

  /** The fenced text's block opens at 0 and closes after the statement. */
  lemma FencedFound(sql: string, rest: string)
    requires forall k :: !MatchAt(sql, k, Fence, false)
    ensures FencedBlock(Fenced(sql) + rest) == Some((0, |FenceOpen| + 1 + |sql| + 1))
  {
    var t := Fenced(sql) + rest;
    FencedLayout(sql, rest);
    OpensAtStart(t);
    FencedClosing(sql, rest);
    FencedBlockIs(t, 0, |FenceOpen| + 1 + |sql| + 1);
  }

  /** Between the fences is the statement framed by newlines, which
      trimming removes. */
  lemma FencedInner(sql: string, rest: string)
    requires Trimmed(sql)
    ensures var t := Fenced(sql) + rest;
      && |FenceOpen| + 1 + |sql| + 1 <= |t|
      && Strip(t[|FenceOpen|..|FenceOpen| + 1 + |sql| + 1]) == sql
  {
    FencedLayout(sql, rest);
    StripFramed("\n", sql, "\n");
  }

  /** The stages read a fenced, trimmed statement back. */
  lemma FencedStages(sql: string, rest: string)
    requires Trimmed(sql)
    requires forall k :: !MatchAt(sql, k, Fence, false)
    ensures FromStages(Fenced(sql) + rest) == sql
  {
    FencedFound(sql, rest);
    FencedInner(sql, rest);
    FenceStage(Fenced(sql) + rest, 0, |FenceOpen| + 1 + |sql| + 1);
  }

  /** An answer that shows a trimmed statement in a ```sql fence, with no
      ``` inside the statement and no `</think>` anywhere, gives the
      statement back to `extract_sql_query`. */
  lemma FencedRoundTrip(sql: string, rest: string)
    requires Trimmed(sql)
    requires forall k :: !MatchAt(sql, k, Fence, false)
    requires forall k :: !MatchAt(Fenced(sql) + rest, k, ThinkEnd, false)
    ensures ExtractSql(Fenced(sql) + rest) == sql
  {
    NoThinkKeepsText(Fenced(sql) + rest);
    FencedStages(sql, rest);
  }
}
