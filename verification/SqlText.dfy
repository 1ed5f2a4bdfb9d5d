/**
 The text side of `sqllite_insert` (P2P_Server_src/db_sqlite.cpp): parameter values, the search
 for the watched table, the rewritten statement, and what an insert statement means.

 Placeholders are plain `?` outside single quotes, numbered from the left. A statement means a
 list of columns and a list of value expressions, each expression being its characters with every
 placeholder replaced by the value bound to it.
 */
module SqlText {

  import opened Common

  datatype DbVal =
    | DbNull
    | DbInt(i: int)
    | DbBigint(l: int)
    | DbDouble(d: real)
    | DbString(s: string)
    | DbDatetime(t: string)

  datatype SqlValue = Null | Integer(n: int) | Real(r: real) | Text(t: string)

  /** The bind call chosen by the type tag. */
  function Bound(v: DbVal): SqlValue {
    match v
    case DbNull => Null
    case DbInt(i) => Integer(i)
    case DbBigint(l) => Integer(l)
    case DbDouble(d) => Real(d)
    case DbString(s) => Text(s)
    case DbDatetime(t) => Text(t)
  }

  /** What the column reads of SQLite give back. */
  function ColumnInt(v: SqlValue): Option<int> { if v.Integer? then Some(v.n) else None }

  function ColumnReal(v: SqlValue): Option<real> { if v.Real? then Some(v.r) else None }

  function ColumnText(v: SqlValue): Option<string> { if v.Text? then Some(v.t) else None }

  /** The value reads back as the parameter of its tag, whole; only a null parameter is null. */
  predicate Carries(v: SqlValue, p: DbVal) {
    && (p.DbNull? <==> v == Null)
    && (p.DbInt? ==> ColumnInt(v) == Some(p.i))
    && (p.DbBigint? ==> ColumnInt(v) == Some(p.l))
    && (p.DbDouble? ==> ColumnReal(v) == Some(p.d))
    && (p.DbString? ==> ColumnText(v) == Some(p.s))
    && (p.DbDatetime? ==> ColumnText(v) == Some(p.t))
  }

  /** Binding loses nothing: what is bound reads back, it is the only value that does, and two parameters
      of one tag are bound alike only if they are the same. */
  lemma BoundReadsBack(p: DbVal, q: DbVal, v: SqlValue)
    ensures Carries(v, p) <==> v == Bound(p)
    ensures Bound(p) == Bound(q) ==>
            p == q || (p.DbInt? && q.DbBigint?) || (p.DbBigint? && q.DbInt?) ||
            (p.DbString? && q.DbDatetime?) || (p.DbDatetime? && q.DbString?)
  {
  }

  // ---------------------------------------------------------------------------
  // The rewrite

  /** Position of the first `c` at or after `from`, or the length. */
  function IndexOf(s: string, c: char, from: nat): (r: nat)
    requires from <= |s|
    ensures from <= r <= |s|
    ensures r < |s| ==> s[r] == c
    ensures forall i :: from <= i < r ==> s[i] != c
    decreases |s| - from
  {
    if from == |s| || s[from] == c then from else IndexOf(s, c, from + 1)
  }

  function FirstParen(sql: string): nat { IndexOf(sql, '(', 0) }

  function SecondParen(sql: string): nat
    requires FirstParen(sql) < |sql|
  {
    IndexOf(sql, '(', FirstParen(sql) + 1)
  }

  predicate TwoParens(sql: string) {
    FirstParen(sql) < |sql| && SecondParen(sql) < |sql|
  }

  function Rewritten(sql: string): string
    requires TwoParens(sql)
  {
    var p, q := FirstParen(sql), SecondParen(sql);
    sql[..p + 1] + "id," + sql[p + 1..q + 1] + "?," + sql[q + 1..]
  }

  function Extended(id: int, params: seq<DbVal>): seq<DbVal> {
    [DbInt(id)] + params
  }

  // ---------------------------------------------------------------------------
  // Which observer slot a statement belongs to

  predicate OccursAt(s: string, pat: string, i: nat) {
    i + |pat| <= |s| && s[i..i + |pat|] == pat
  }

  predicate Contains(s: string, pat: string) {
    exists i :: 0 <= i <= |s| && OccursAt(s, pat, i)
  }

  /** The source builds a third pattern with two spaces and never tests it. */
  predicate Matches(name: string, sql: string) {
    Contains(sql, name + "(") || Contains(sql, name + " (")
  }

  function FirstMatch(slots: seq<Option<string>>, sql: string): (r: Option<string>) {
    if slots == [] then None
    else if slots[0].Some? && Matches(slots[0].value, sql) then slots[0]
    else FirstMatch(slots[1..], sql)
  }

  // ---------------------------------------------------------------------------
  // Meaning

  datatype Piece = Ch(c: char) | Arg(v: SqlValue)

  /** A placeholder beyond the bound parameters reads as null. */
  function ArgAt(params: seq<DbVal>, k: nat): Piece {
    Arg(if k < |params| then Bound(params[k]) else Null)
  }

  /** Replaces every placeholder; `k` counts those already met. */
  function Subst(text: string, k: nat, quoted: bool, params: seq<DbVal>): (r: seq<Piece>)
    ensures |r| == |text|
  {
    if text == [] then []
    else if text[0] == '\'' then [Ch('\'')] + Subst(text[1..], k, !quoted, params)
    else if text[0] == '?' && !quoted then [ArgAt(params, k)] + Subst(text[1..], k + 1, quoted, params)
    else [Ch(text[0])] + Subst(text[1..], k, quoted, params)
  }

  /** Positions of the placeholders of a text that starts at position `at`. */
  function Placeholders(text: string, at: nat, quoted: bool): seq<nat> {
    if text == [] then []
    else if text[0] == '\'' then Placeholders(text[1..], at + 1, !quoted)
    else if text[0] == '?' && !quoted then [at] + Placeholders(text[1..], at + 1, quoted)
    else Placeholders(text[1..], at + 1, quoted)
  }

  /** Whether a text that starts inside or outside quotes ends inside them. */
  function QuotedAfter(text: string, quoted: bool): bool {
    if text == [] then quoted else QuotedAfter(text[1..], quoted != (text[0] == '\''))
  }

  datatype Parsed = Parsed(fields: seq<seq<Piece>>, rest: seq<Piece>)

  /** Comma-separated fields up to the parenthesis that closes them, and what follows it. */
  function Fields(ts: seq<Piece>, depth: nat, quoted: bool): (r: Option<Parsed>)
    ensures r.Some? ==> |r.value.fields| >= 1
  {
    if ts == [] then None
    else if quoted || ts[0] == Ch('\'') then AddPiece(ts[0], Fields(ts[1..], depth, quoted != (ts[0] == Ch('\''))))
    else if ts[0] == Ch('(') then AddPiece(ts[0], Fields(ts[1..], depth + 1, false))
    else if ts[0] == Ch(')') && depth == 0 then Some(Parsed([[]], ts[1..]))
    else if ts[0] == Ch(')') then AddPiece(ts[0], Fields(ts[1..], depth - 1, false))
    else if ts[0] == Ch(',') && depth == 0 then AddField(Fields(ts[1..], 0, false))
    else AddPiece(ts[0], Fields(ts[1..], depth, false))
  }

  function AddPiece(t: Piece, r: Option<Parsed>): (r': Option<Parsed>)
    requires r.Some? ==> |r.value.fields| >= 1
    ensures r'.Some? ==> |r'.value.fields| >= 1
  {
    if r == None then None else Some(Parsed([[t] + r.value.fields[0]] + r.value.fields[1..], r.value.rest))
  }

  function AddField(r: Option<Parsed>): (r': Option<Parsed>)
    ensures r'.Some? ==> |r'.value.fields| >= 1
  {
    if r == None then None else Some(Parsed([[]] + r.value.fields, r.value.rest))
  }

  function SkipTo(ts: seq<Piece>, t: Piece): Option<seq<Piece>> {
    if ts == [] then None else if ts[0] == t then Some(ts[1..]) else SkipTo(ts[1..], t)
  }

  predicate Blank(ts: seq<Piece>) {
    forall i :: 0 <= i < |ts| ==> ts[i] == Ch(' ') || ts[i] == Ch(';')
  }

  datatype Insert = Insert(columns: seq<seq<Piece>>, values: seq<seq<Piece>>)

  /** Column list, then the next parenthesised list as its values, then nothing. */
  function ParseFrom(ts: seq<Piece>): Option<Insert> {
    var cols := Fields(ts, 0, false);
    if cols == None then None
    else
      var after := SkipTo(cols.value.rest, Ch('('));
      if after == None then None
      else
        var vals := Fields(after.value, 0, false);
        if vals == None || !Blank(vals.value.rest) || |vals.value.fields| != |cols.value.fields| then None
        else Some(Insert(cols.value.fields, vals.value.fields))
  }

  function Denote(sql: string, params: seq<DbVal>): Option<Insert> {
    var p := FirstParen(sql);
    if p == |sql| then None else ParseFrom(Subst(sql, 0, false, params)[p + 1..])
  }

  function StripSpaces(s: string): string {
    if s != [] && s[|s| - 1] == ' ' then StripSpaces(s[..|s| - 1]) else s
  }

  function LastWord(s: string): string {
    if s == [] || s[|s| - 1] == ' ' then [] else LastWord(s[..|s| - 1]) + [s[|s| - 1]]
  }

  /** The table an insert statement names: the last word before its first parenthesis. */
  function Target(sql: string): string {
    LastWord(StripSpaces(sql[..FirstParen(sql)]))
  }

  /** Every quote is closed and no placeholder stands outside quotes. */
  predicate Calm(s: string, quoted: bool) {
    if s == [] then !quoted
    else if s[0] == '\'' then Calm(s[1..], !quoted)
    else (quoted || s[0] != '?') && Calm(s[1..], quoted)
  }

  /** The shape the rewrite is meant for: the column list closes before the second parenthesis
      opens, no placeholder stands before that, and both parentheses stand outside quotes. */
  predicate Shape(sql: string) {
    && TwoParens(sql)
    && IndexOf(sql, ')', FirstParen(sql) + 1) < SecondParen(sql)
    && Calm(sql[..FirstParen(sql)], false)
    && Calm(sql[FirstParen(sql) + 1..IndexOf(sql, ')', FirstParen(sql) + 1)], false)
    && Calm(sql[IndexOf(sql, ')', FirstParen(sql) + 1) + 1..SecondParen(sql)], false)
  }

  // ---------------------------------------------------------------------------
  // What the meaning is made of

  /** A placeholder stands where a question mark stands outside quotes. */
  predicate IsPlaceholder(text: string, quoted: bool, i: nat)
    requires i < |text|
  {
    text[i] == '?' && !QuotedAfter(text[..i], quoted)
  }

  lemma {:induction false} PlaceholdersAre(text: string, at: nat, quoted: bool, i: nat)
    requires i < |text|
    ensures at + i in Placeholders(text, at, quoted) <==> IsPlaceholder(text, quoted, i)
  {
    var rest, q := text[1..], quoted != (text[0] == '\'');
    PlaceholdersInRange(rest, at + 1, q);
    if i > 0 {
      PlaceholdersAre(rest, at + 1, q, i - 1);
      assert text[..i][1..] == rest[..i - 1];
    }
  }

  /** Every placeholder is replaced by the parameter of its number, every other character stands for itself. */
  lemma {:induction false} SubstAt(text: string, k: nat, quoted: bool, params: seq<DbVal>, i: nat)
    requires i < |text|
    ensures Subst(text, k, quoted, params)[i] ==
            if IsPlaceholder(text, quoted, i) then ArgAt(params, k + |Placeholders(text[..i], 0, quoted)|)
            else Ch(text[i])
  {
    if i > 0 {
      var rest, q := text[1..], quoted != (text[0] == '\'');
      var j := if text[0] == '?' && !quoted then 1 else 0;
      SubstAt(rest, k + j, q, params, i - 1);
      assert text[..i][1..] == rest[..i - 1];
      assert Subst(text, k, quoted, params)[i] == Subst(rest, k + j, q, params)[i - 1];
      PlaceholdersShift(rest[..i - 1], 0, q, 1);
    }
  }

  function Join(fields: seq<seq<Piece>>): seq<Piece>
    requires fields != []
  {
    if |fields| == 1 then fields[0] else fields[0] + [Ch(',')] + Join(fields[1..])
  }

  lemma JoinPiece(t: Piece, fields: seq<seq<Piece>>)
    requires fields != []
    ensures Join([[t] + fields[0]] + fields[1..]) == [t] + Join(fields)
  {
    var longer := [[t] + fields[0]] + fields[1..];
    assert longer[1..] == fields[1..];
    if |fields| > 1 {
      assert ([t] + fields[0]) + [Ch(',')] + Join(fields[1..]) == [t] + (fields[0] + [Ch(',')] + Join(fields[1..]));
    }
  }

  lemma JoinField(fields: seq<seq<Piece>>)
    requires fields != []
    ensures Join([[]] + fields) == [Ch(',')] + Join(fields)
  {
    assert ([[]] + fields)[1..] == fields;
    assert [] + [Ch(',')] == [Ch(',')];
  }

  /** The text is the fields with commas between them, the closing parenthesis and the rest. */
  ghost predicate Reads(ts: seq<Piece>, p: Parsed) {
    p.fields != [] && ts == Join(p.fields) + [Ch(')')] + p.rest
  }

  lemma PieceReads(ts: seq<Piece>, p: Parsed)
    requires ts != [] && Reads(ts[1..], p)
    ensures Reads(ts, AddPiece(ts[0], Some(p)).value)
  {
    JoinPiece(ts[0], p.fields);
    assert ts == [ts[0]] + ts[1..];
    assert [ts[0]] + (Join(p.fields) + [Ch(')')] + p.rest) == ([ts[0]] + Join(p.fields)) + [Ch(')')] + p.rest;
  }

  lemma FieldReads(ts: seq<Piece>, p: Parsed)
    requires ts != [] && ts[0] == Ch(',') && Reads(ts[1..], p)
    ensures Reads(ts, AddField(Some(p)).value)
  {
    JoinField(p.fields);
    assert ts == [ts[0]] + ts[1..];
    assert [ts[0]] + (Join(p.fields) + [Ch(')')] + p.rest) == ([ts[0]] + Join(p.fields)) + [Ch(')')] + p.rest;
  }

  lemma {:induction false} FieldsJoin(ts: seq<Piece>, depth: nat, quoted: bool)
    requires Fields(ts, depth, quoted).Some?
    ensures Reads(ts, Fields(ts, depth, quoted).value)
  {
    var t, rest := ts[0], ts[1..];
    if !quoted && t == Ch(')') && depth == 0 {
      assert ts == Join([[]]) + [Ch(')')] + rest;
    } else if !quoted && t == Ch(',') && depth == 0 {
      FieldsJoin(rest, 0, false);
      FieldReads(ts, Fields(rest, 0, false).value);
    } else {
      var quoted' := quoted != (t == Ch('\''));
      var depth' := if quoted || t == Ch('\'') then depth
                    else if t == Ch('(') then depth + 1 else if t == Ch(')') then depth - 1 else depth;
      FieldsJoin(rest, depth', quoted');
      PieceReads(ts, Fields(rest, depth', quoted').value);
    }
  }

  /** A list without quotes and parentheses is cut at every comma. */
  lemma {:induction false} CutAtCommas(a: string)
    requires forall i :: 0 <= i < |a| ==> a[i] != '\''
    ensures Join(FlatFields(a, false)) == Chars(a)
    ensures forall i :: 0 <= i < |FlatFields(a, false)| ==> Ch(',') !in FlatFields(a, false)[i]
  {
    if a != [] {
      var r := FlatFields(a[1..], false);
      CutAtCommas(a[1..]);
      if a[0] == ',' {
        JoinField(r);
      } else {
        JoinPiece(Ch(a[0]), r);
      }
    }
  }

  /** Taking the added text out again gives the statement back, whatever it is. */
  lemma RewriteUndone(sql: string, p: nat, q: nat, r: string)
    requires TwoParens(sql) && p == FirstParen(sql) && q == SecondParen(sql) && r == Rewritten(sql)
    ensures |r| == |sql| + 5 && r[p + 1..p + 4] == "id," && r[q + 4..q + 6] == "?,"
    ensures r[..p + 1] + r[p + 4..q + 4] + r[q + 6..] == sql
  {
    TakenOut(sql, p, q, r);
  }

  lemma TakenOut(sql: string, p: nat, q: nat, r: string)
    requires p < q < |sql| && r == sql[..p + 1] + "id," + sql[p + 1..q + 1] + "?," + sql[q + 1..]
    ensures |r| == |sql| + 5 && r[p + 1..p + 4] == "id," && r[q + 4..q + 6] == "?,"
    ensures r[..p + 1] + r[p + 4..q + 4] + r[q + 6..] == sql
  {
    var a, b, c := sql[..p + 1], sql[p + 1..q + 1], sql[q + 1..];
    RewrittenParts(a, b, c, r);
    WholeText(sql, p + 1, q + 1);
    assert |a| == p + 1 && |b| == q - p;
    assert r[p + 4..q + 4] == b && r[q + 6..] == c;
  }

  lemma WholeText(s: string, i: nat, j: nat)
    requires i <= j <= |s|
    ensures s[..i] + s[i..j] + s[j..] == s
  {
    assert s[..i] + s[i..j] == s[..j];
  }

  lemma RewrittenParts(a: string, b: string, c: string, r: string)
    requires r == a + "id," + b + "?," + c
    ensures r[..|a|] == a && r[|a|..|a| + 3] == "id," && r[|a| + 3..|a| + |b| + 3] == b
    ensures r[|a| + |b| + 3..|a| + |b| + 5] == "?," && r[|a| + |b| + 5..] == c
  {
  }

  // ---------------------------------------------------------------------------
  // The rewrite preserves meaning

  lemma {:induction false} CalmConcat(a: string, b: string, quoted: bool)
    requires Calm(a, quoted) && Calm(b, false)
    ensures Calm(a + b, quoted)
  {
    if a == [] {
      assert a + b == b;
    } else {
      assert (a + b)[1..] == a[1..] + b;
      CalmConcat(a[1..], b, quoted != (a[0] == '\''));
    }
  }

  /** Calm in terms of the two scans it combines. */
  lemma {:induction false} CalmIff(a: string, at: nat, quoted: bool)
    ensures Calm(a, quoted) <==> Placeholders(a, at, quoted) == [] && !QuotedAfter(a, quoted)
  {
    if a != [] {
      CalmIff(a[1..], at + 1, quoted != (a[0] == '\''));
    }
  }

  function Chars(s: string): (r: seq<Piece>)
    ensures |r| == |s|
  {
    if s == [] then [] else [Ch(s[0])] + Chars(s[1..])
  }

  /** A calm text stands for itself, and what follows it is read from the start. */
  lemma {:induction false} SubstCalm(a: string, b: string, k: nat, quoted: bool, params: seq<DbVal>)
    requires Calm(a, quoted)
    ensures Subst(a + b, k, quoted, params) == Chars(a) + Subst(b, k, false, params)
  {
    if a == [] {
      assert a + b == b;
    } else {
      assert (a + b)[1..] == a[1..] + b;
      SubstCalm(a[1..], b, k, quoted != (a[0] == '\''), params);
    }
  }

  /** One more parameter in front serves every later placeholder the parameter it had. */
  lemma {:induction false} SubstShift(text: string, k: nat, quoted: bool, v: DbVal, params: seq<DbVal>)
    ensures Subst(text, k + 1, quoted, [v] + params) == Subst(text, k, quoted, params)
  {
    if text != [] {
      if text[0] == '\'' {
        SubstShift(text[1..], k, !quoted, v, params);
      } else if text[0] == '?' && !quoted {
        SubstShift(text[1..], k + 1, quoted, v, params);
      } else {
        SubstShift(text[1..], k, quoted, v, params);
      }
    }
  }

  predicate NoParen(s: string) {
    forall i :: 0 <= i < |s| ==> s[i] != '(' && s[i] != ')'
  }

  /** The fields of a flat list do not depend on what follows its closing parenthesis. */
  lemma {:induction false} FieldsFlat(a: string, tail: seq<Piece>, quoted: bool)
    requires NoParen(a) && Calm(a, quoted)
    ensures Fields(Chars(a) + [Ch(')')] + tail, 0, quoted) == Some(Parsed(FlatFields(a, quoted), tail))
  {
    var ts := Chars(a) + [Ch(')')] + tail;
    if a == [] {
      assert ts[1..] == tail;
    } else {
      assert ts[1..] == Chars(a[1..]) + [Ch(')')] + tail;
      assert ts[0] == Ch(a[0]);
      FieldsFlat(a[1..], tail, quoted != (a[0] == '\''));
    }
  }

  function FlatFields(a: string, quoted: bool): (r: seq<seq<Piece>>)
    ensures |r| >= 1
  {
    if a == [] then [[]]
    else
      var r := FlatFields(a[1..], quoted != (a[0] == '\''));
      if a[0] == ',' && !quoted then [[]] + r else [[Ch(a[0])] + r[0]] + r[1..]
  }

  lemma {:induction false} SkipChars(a: string, tail: seq<Piece>)
    requires forall i :: 0 <= i < |a| ==> a[i] != '('
    ensures SkipTo(Chars(a) + [Ch('(')] + tail, Ch('(')) == Some(tail)
  {
    var ts := Chars(a) + [Ch('(')] + tail;
    if a == [] {
      assert ts[1..] == tail;
    } else {
      assert ts[1..] == Chars(a[1..]) + [Ch('(')] + tail;
      SkipChars(a[1..], tail);
    }
  }

  /** The two lists of a statement, from the text of the first and the pieces of the second. */
  function Assemble(columns: string, vals: seq<Piece>): Option<Insert> {
    var r := Fields(vals, 0, false);
    if r == None || !Blank(r.value.rest) || |r.value.fields| != |FlatFields(columns, false)| then None
    else Some(Insert(FlatFields(columns, false), r.value.fields))
  }

  lemma ParseShape(columns: string, mid: string, vals: seq<Piece>)
    requires NoParen(columns) && Calm(columns, false)
    requires forall i :: 0 <= i < |mid| ==> mid[i] != '('
    ensures ParseFrom(Chars(columns) + [Ch(')')] + (Chars(mid) + [Ch('(')] + vals)) == Assemble(columns, vals)
  {
    var tail := Chars(mid) + [Ch('(')] + vals;
    FieldsFlat(columns, tail, false);
    SkipChars(mid, vals);
  }

  /** A statement cut as the rewrite cuts it. */
  datatype Cut = Cut(head: string, columns: string, mid: string, vals: string) {
    /** Up to and including the second parenthesis. */
    function Front(): string { head + "(" + columns + ")" + mid + "(" }

    function Sql(): string { Front() + vals }

    predicate Ok() {
      && Calm(head, false) && Calm(columns, false) && Calm(mid, false)
      && NoParen(columns)
      && (forall i :: 0 <= i < |head| ==> head[i] != '(')
      && (forall i :: 0 <= i < |mid| ==> mid[i] != '(')
    }
  }

  function CutOf(sql: string): Cut
    requires Shape(sql)
  {
    var p, q := FirstParen(sql), SecondParen(sql);
    var e := IndexOf(sql, ')', p + 1);
    Cut(sql[..p], sql[p + 1..e], sql[e + 1..q], sql[q + 1..])
  }

  lemma FrontCalm(c: Cut)
    requires c.Ok()
    ensures Calm(c.Front(), false)
  {
    assert "("[1..] == "" && ")"[1..] == "";
    CalmConcat(c.head, "(", false);
    CalmConcat(c.head + "(", c.columns, false);
    CalmConcat(c.head + "(" + c.columns, ")", false);
    CalmConcat(c.head + "(" + c.columns + ")", c.mid, false);
    CalmConcat(c.head + "(" + c.columns + ")" + c.mid, "(", false);
  }

  lemma Reassemble(s: string, p: nat, e: nat, q: nat)
    requires p < e < q < |s| && s[p] == '(' && s[e] == ')' && s[q] == '('
    ensures s[..p] + "(" + s[p + 1..e] + ")" + s[e + 1..q] + "(" + s[q + 1..] == s
  {
    assert s[..p] + "(" == s[..p + 1];
    assert s[..p + 1] + s[p + 1..e] == s[..e];
    assert s[..e] + ")" == s[..e + 1];
    assert s[..e + 1] + s[e + 1..q] == s[..q];
    assert s[..q] + "(" == s[..q + 1];
  }

  lemma CutOk(sql: string)
    requires Shape(sql)
    ensures CutOf(sql).Ok()
  {
  }

  lemma CutIsSql(sql: string)
    requires Shape(sql)
    ensures CutOf(sql).Ok() && CutOf(sql).Sql() == sql
  {
    var p, q := FirstParen(sql), SecondParen(sql);
    var e := IndexOf(sql, ')', p + 1);
    CutOk(sql);
    CutText(Cut(sql[..p], sql[p + 1..e], sql[e + 1..q], sql[q + 1..]), sql, p, e, q);
  }

  lemma CutText(c: Cut, sql: string, p: nat, e: nat, q: nat)
    requires p < e < q < |sql| && sql[p] == '(' && sql[e] == ')' && sql[q] == '('
    requires c == Cut(sql[..p], sql[p + 1..e], sql[e + 1..q], sql[q + 1..])
    ensures c.Sql() == sql
  {
    Reassemble(sql, p, e, q);
  }

  lemma CutParens(c: Cut)
    requires c.Ok()
    ensures
      var sql := c.Sql();
      && TwoParens(sql)
      && FirstParen(sql) == |c.head|
      && SecondParen(sql) == |c.head| + |c.columns| + |c.mid| + 2
  {
    var sql := c.Sql();
    var p, q := |c.head|, |c.head| + |c.columns| + |c.mid| + 2;
    assert sql[p] == '(' && sql[q] == '(';
    forall i | 0 <= i < q && i != p
      ensures sql[i] != '('
    {
      if p < i <= p + |c.columns| {
        assert sql[i] == c.columns[i - p - 1];
      } else if i > p + |c.columns| + 1 {
        assert sql[i] == c.mid[i - p - |c.columns| - 2];
      }
    }
  }

  /** Where the parts of a cut stand in the statement. */
  lemma CutSlices(c: Cut)
    ensures
      var sql := c.Sql();
      var p := |c.head|;
      var e := p + 1 + |c.columns|;
      var q := e + 1 + |c.mid|;
      && q < |sql| && |c.Front()| == q + 1
      && sql[p] == '(' && sql[e] == ')' && sql[q] == '('
      && sql[..p] == c.head && sql[p + 1..e] == c.columns && sql[e + 1..q] == c.mid && sql[q + 1..] == c.vals
  {
  }

  lemma ColumnsEnd(c: Cut)
    requires c.Ok()
    ensures IndexOf(c.Sql(), ')', |c.head| + 1) == |c.head| + 1 + |c.columns|
  {
    var sql := c.Sql();
    var p := |c.head|;
    var e := p + 1 + |c.columns|;
    CutSlices(c);
    forall i | p + 1 <= i < e
      ensures sql[i] != ')'
    {
      assert sql[i] == sql[p + 1..e][i - p - 1] == c.columns[i - p - 1];
    }
  }

  /** The statements of the shape are exactly the cuts put together again. */
  lemma CutHasShape(c: Cut)
    requires c.Ok()
    ensures Shape(c.Sql()) && CutOf(c.Sql()) == c
  {
    CutParens(c);
    CutSlices(c);
    ColumnsEnd(c);
  }

  lemma AfterHead(c: Cut, w: seq<Piece>)
    ensures
      (Chars(c.Front()) + w)[|c.head| + 1..] == Chars(c.columns) + [Ch(')')] + (Chars(c.mid) + [Ch('(')] + w)
  {
    CharsOfFront(c);
    SkipHead(Chars(c.head), Chars(c.columns), Chars(c.mid), w);
  }

  lemma SkipHead(head: seq<Piece>, columns: seq<Piece>, mid: seq<Piece>, w: seq<Piece>)
    ensures
      (head + [Ch('(')] + columns + [Ch(')')] + mid + [Ch('(')] + w)[|head| + 1..] ==
      columns + [Ch(')')] + (mid + [Ch('(')] + w)
  {
    var h, rest := head + [Ch('(')], columns + [Ch(')')] + (mid + [Ch('(')] + w);
    assert head + [Ch('(')] + columns + [Ch(')')] + mid + [Ch('(')] + w == h + rest;
  }

  /** What a statement of the shape means, in terms of its cut. */
  lemma DenoteCut(c: Cut, params: seq<DbVal>)
    requires c.Ok()
    ensures Denote(c.Sql(), params) == Assemble(c.columns, Subst(c.vals, 0, false, params))
  {
    CutParens(c);
    FrontCalm(c);
    SubstCalm(c.Front(), c.vals, 0, false, params);
    AfterHead(c, Subst(c.vals, 0, false, params));
    ParseShape(c.columns, c.mid, Subst(c.vals, 0, false, params));
  }

  lemma {:induction false} CharsConcat(a: string, b: string)
    ensures Chars(a + b) == Chars(a) + Chars(b)
  {
    if a == [] {
      assert a + b == b;
    } else {
      assert (a + b)[1..] == a[1..] + b;
      CharsConcat(a[1..], b);
    }
  }

  lemma CharsOfFront(c: Cut)
    ensures Chars(c.Front()) ==
            Chars(c.head) + [Ch('(')] + Chars(c.columns) + [Ch(')')] + Chars(c.mid) + [Ch('(')]
  {
    CharsConcat(c.head, "(");
    CharsConcat(c.head + "(", c.columns);
    CharsConcat(c.head + "(" + c.columns, ")");
    CharsConcat(c.head + "(" + c.columns + ")", c.mid);
    CharsConcat(c.head + "(" + c.columns + ")" + c.mid, "(");
  }

  const ID_COLUMN: seq<Piece> := [Ch('i'), Ch('d')]

  function WithId(id: int, r: Option<Insert>): Option<Insert> {
    if r == None then None
    else Some(Insert([ID_COLUMN] + r.value.columns, [[Arg(Integer(id))]] + r.value.values))
  }

  lemma PrependToFirst(t: Piece, f: seq<Piece>, r: seq<seq<Piece>>)
    ensures [[t] + ([f] + r)[0]] + ([f] + r)[1..] == [[t] + f] + r
    ensures [t] + [] == [t]
  {
  }

  lemma IdColumn(columns: string)
    ensures FlatFields("id," + columns, false) == [ID_COLUMN] + FlatFields(columns, false)
  {
    var s := "id," + columns;
    assert s[1..] == "d," + columns && s[1..][1..] == "," + columns && s[1..][1..][1..] == columns;
    var r := FlatFields(columns, false);
    assert FlatFields("," + columns, false) == [[]] + r;
    PrependToFirst(Ch('d'), [], r);
    assert FlatFields("d," + columns, false) == [[Ch('d')]] + r;
    PrependToFirst(Ch('i'), [Ch('d')], r);
    assert [Ch('i')] + [Ch('d')] == ID_COLUMN;
    assert FlatFields(s, false) == [[Ch('i')] + FlatFields(s[1..], false)[0]] + FlatFields(s[1..], false)[1..];
  }

  lemma IdValue(v: SqlValue, w: seq<Piece>)
    ensures
      var r := Fields(w, 0, false);
      Fields([Arg(v), Ch(',')] + w, 0, false) ==
      if r == None then None else Some(Parsed([[Arg(v)]] + r.value.fields, r.value.rest))
  {
    var ts := [Arg(v), Ch(',')] + w;
    assert ts[1..] == [Ch(',')] + w && ts[1..][1..] == w;
    var r := Fields(w, 0, false);
    if r.Some? {
      PrependToFirst(Arg(v), [], r.value.fields);
    }
  }

  function RewrittenCut(c: Cut): Cut {
    Cut(c.head, "id," + c.columns, c.mid, "?," + c.vals)
  }

  lemma RewrittenCutOk(c: Cut)
    requires c.Ok()
    ensures RewrittenCut(c).Ok()
  {
    assert Calm("id,", false) by {
      assert "id,"[1..] == "d," && "d,"[1..] == "," && ","[1..] == "";
    }
    CalmConcat("id,", c.columns, false);
  }

  lemma RewriteText(c: Cut, p: nat, q: nat)
    requires p == |c.head| && q == |c.Front()| - 1
    ensures c.Sql()[..p + 1] + "id," + c.Sql()[p + 1..q + 1] + "?," + c.Sql()[q + 1..] == RewrittenCut(c).Sql()
  {
    var sql := c.Sql();
    assert sql[..p + 1] == c.head + "(";
    assert sql[p + 1..q + 1] == c.columns + ")" + c.mid + "(";
    assert sql[q + 1..] == c.vals;
  }

  lemma RewriteOfCut(c: Cut)
    requires c.Ok()
    ensures RewrittenCut(c).Ok()
    ensures TwoParens(c.Sql()) && Rewritten(c.Sql()) == RewrittenCut(c).Sql()
  {
    RewrittenCutOk(c);
    CutParens(c);
    RewriteText(c, |c.head|, |c.Front()| - 1);
  }

  lemma DenoteRewrittenCut(c: Cut, id: int, params: seq<DbVal>)
    requires c.Ok()
    ensures Assemble("id," + c.columns, Subst("?," + c.vals, 0, false, Extended(id, params))) ==
            WithId(id, Assemble(c.columns, Subst(c.vals, 0, false, params)))
  {
    var ps := Extended(id, params);
    var w := Subst(c.vals, 0, false, params);
    var s := "?," + c.vals;
    assert s[1..] == "," + c.vals && s[1..][1..] == c.vals;
    SubstShift(c.vals, 0, false, DbInt(id), params);
    assert Subst(s, 0, false, ps) == [Arg(Integer(id)), Ch(',')] + w;
    IdColumn(c.columns);
    IdValue(Integer(id), w);
  }

  /** The rewritten statement with the extended parameters means the original row plus column
      `id` with the allocated value. */
  lemma RewritePreserves(sql: string, id: int, params: seq<DbVal>)
    requires Shape(sql)
    ensures Denote(Rewritten(sql), Extended(id, params)) == WithId(id, Denote(sql, params))
    ensures Target(Rewritten(sql)) == Target(sql)
  {
    var c := CutOf(sql);
    CutIsSql(sql);
    RewriteOfCut(c);
    DenoteCut(c, params);
    DenoteCut(RewrittenCut(c), Extended(id, params));
    DenoteRewrittenCut(c, id, params);
    TargetKept(sql);
  }

  /** The table name survives the rewrite of any statement. */
  lemma TargetKept(sql: string)
    requires TwoParens(sql)
    ensures Target(Rewritten(sql)) == Target(sql)
  {
    var p := FirstParen(sql);
    var r := Rewritten(sql);
    assert forall i :: 0 <= i <= p ==> r[i] == sql[i];
    assert FirstParen(r) == p;
    assert r[..p] == sql[..p];
  }

  // ---------------------------------------------------------------------------
  // Placeholders one by one

  function Shifted(s: seq<nat>, d: nat): (r: seq<nat>)
    ensures |r| == |s| && forall i :: 0 <= i < |s| ==> r[i] == s[i] + d
  {
    if s == [] then [] else [s[0] + d] + Shifted(s[1..], d)
  }

  lemma {:induction false} PlaceholdersConcat(a: string, b: string, at: nat, quoted: bool)
    ensures Placeholders(a + b, at, quoted) ==
            Placeholders(a, at, quoted) + Placeholders(b, at + |a|, QuotedAfter(a, quoted))
    ensures QuotedAfter(a + b, quoted) == QuotedAfter(b, QuotedAfter(a, quoted))
  {
    if a == [] {
      assert a + b == b;
    } else {
      assert (a + b)[1..] == a[1..] + b;
      PlaceholdersConcat(a[1..], b, at + 1, quoted != (a[0] == '\''));
    }
  }

  lemma {:induction false} PlaceholdersInRange(text: string, at: nat, quoted: bool)
    ensures forall i :: 0 <= i < |Placeholders(text, at, quoted)| ==>
              at <= Placeholders(text, at, quoted)[i] < at + |text|
  {
    if text != [] {
      PlaceholdersInRange(text[1..], at + 1, quoted != (text[0] == '\''));
    }
  }

  lemma {:induction false} PlaceholdersShift(text: string, at: nat, quoted: bool, d: nat)
    ensures Placeholders(text, at + d, quoted) == Shifted(Placeholders(text, at, quoted), d)
  {
    if text != [] {
      var rest := text[1..];
      PlaceholdersShift(rest, at + 1, !quoted, d);
      PlaceholdersShift(rest, at + 1, quoted, d);
      assert at + d + 1 == (at + 1) + d;
      if text[0] == '?' && !quoted {
        var t := Placeholders(rest, at + 1, quoted);
        assert ([at] + t)[1..] == t;
      }
    }
  }

  lemma PlaceholdersOfCut(c: Cut)
    requires c.Ok()
    ensures Placeholders(c.Sql(), 0, false) == Placeholders(c.vals, |c.Front()|, false)
  {
    FrontCalm(c);
    CalmIff(c.Front(), 0, false);
    PlaceholdersConcat(c.Front(), c.vals, 0, false);
  }

  lemma AddedPlaceholder(vals: string, at: nat)
    ensures Placeholders("?," + vals, at, false) == [at] + Placeholders(vals, at + 2, false)
  {
    var s := "?," + vals;
    assert s[1..] == "," + vals && s[1..][1..] == vals;
  }

  lemma CutPlaceholdersMove(c: Cut)
    requires c.Ok() && RewrittenCut(c).Ok()
    ensures Placeholders(RewrittenCut(c).Sql(), 0, false) ==
            [|c.Front()| + 3] + Shifted(Placeholders(c.Sql(), 0, false), 5)
  {
    var at := |c.Front()|;
    PlaceholdersOfCut(c);
    PlaceholdersOfCut(RewrittenCut(c));
    assert |RewrittenCut(c).Front()| == at + 3;
    AddedPlaceholder(c.vals, at + 3);
    PlaceholdersShift(c.vals, at, false, 5);
  }

  /** The rewrite adds one placeholder right behind the second parenthesis, moves every old one by
      five characters and one number, and leaves each its parameter. */
  lemma PlaceholdersMove(sql: string, id: int, params: seq<DbVal>, k: nat)
    requires Shape(sql)
    ensures Placeholders(Rewritten(sql), 0, false) == [SecondParen(sql) + 4] + Shifted(Placeholders(sql, 0, false), 5)
    ensures ArgAt(Extended(id, params), k + 1) == ArgAt(params, k)
    ensures ArgAt(Extended(id, params), 0) == Arg(Integer(id))
  {
    var c := CutOf(sql);
    CutIsSql(sql);
    CutParens(c);
    RewriteOfCut(c);
    CutPlaceholdersMove(c);
  }

  lemma IdTextCalm(at: nat)
    ensures Placeholders("id,", at, false) == [] && !QuotedAfter("id,", false)
  {
    assert "id,"[1..] == "d," && "d,"[1..] == "," && ","[1..] == "";
    assert Placeholders(",", at + 2, false) == [] && !QuotedAfter(",", false);
    assert Placeholders("d,", at + 1, false) == [] && !QuotedAfter("d,", false);
  }

  lemma FrontPlaceholders(a: string, b: string)
    requires !QuotedAfter(a, false)
    ensures Placeholders(a + "id," + b, 0, false) == Placeholders(a, 0, false) + Placeholders(b, |a| + 3, false)
    ensures QuotedAfter(a + "id," + b, false) == QuotedAfter(b, false)
  {
    IdTextCalm(|a|);
    PlaceholdersConcat(a, "id,", 0, false);
    PlaceholdersConcat(a + "id,", b, 0, false);
  }

  lemma RewrittenPlaceholders(a: string, b: string, vals: string)
    requires !QuotedAfter(a, false) && !QuotedAfter(b, false)
    ensures
      Placeholders(a + "id," + b + "?," + vals, 0, false) ==
      Placeholders(a, 0, false) + Placeholders(b, |a| + 3, false) +
      ([|a| + |b| + 3] + Placeholders(vals, |a| + |b| + 5, false))
  {
    var front := a + "id," + b;
    FrontPlaceholders(a, b);
    AddedPlaceholder(vals, |front|);
    PlaceholdersConcat(front, "?," + vals, 0, false);
    assert front + "?," + vals == front + ("?," + vals);
  }

  lemma FirstOfThree(x: seq<nat>, y: seq<nat>, z: seq<nat>, m: nat)
    requires forall i :: 0 <= i < |x| ==> x[i] < m
    requires forall i :: 0 <= i < |y| ==> y[i] < m
    ensures (x + y + ([m] + z))[0] == m <==> x + y == []
  {
    if x != [] {
      assert (x + y + ([m] + z))[0] == x[0];
    } else if y != [] {
      assert (x + y + ([m] + z))[0] == y[0];
    }
  }

  lemma AddedIsFirstCore(a: string, b: string, vals: string)
    requires !QuotedAfter(a, false) && !QuotedAfter(b, false)
    ensures
      var ps := Placeholders(a + "id," + b + "?," + vals, 0, false);
      ps != [] && (ps[0] == |a| + |b| + 3 <==> Placeholders(a + b, 0, false) == [])
  {
    var m := |a| + |b| + 3;
    var x, y, z := Placeholders(a, 0, false), Placeholders(b, |a| + 3, false), Placeholders(vals, m + 2, false);
    RewrittenPlaceholders(a, b, vals);
    PlaceholdersInRange(a, 0, false);
    PlaceholdersInRange(b, |a| + 3, false);
    FirstOfThree(x, y, z, m);
    PlaceholdersConcat(a, b, 0, false);
    PlaceholdersShift(b, |a|, false, 3);
  }

  /** The added placeholder is the first, and so takes the id, if and only if no placeholder stands
      before the second parenthesis. */
  lemma AddedIsFirstIff(sql: string)
    requires TwoParens(sql)
    requires !QuotedAfter(sql[..FirstParen(sql) + 1], false) && !QuotedAfter(sql[..SecondParen(sql) + 1], false)
    ensures
      var ps := Placeholders(Rewritten(sql), 0, false);
      (ps != [] && ps[0] == SecondParen(sql) + 4) <==> Placeholders(sql[..SecondParen(sql) + 1], 0, false) == []
  {
    var p, q := FirstParen(sql), SecondParen(sql);
    var a, b := sql[..p + 1], sql[p + 1..q + 1];
    assert sql[..q + 1] == a + b;
    PlaceholdersConcat(a, b, 0, false);
    AddedIsFirstCore(a, b, sql[q + 1..]);
  }

  // ---------------------------------------------------------------------------
  // The watched table

  predicate EndsAt(s: string, pat: string, q: nat) {
    |pat| <= q <= |s| && s[q - |pat|..q] == pat
  }

  lemma OccursBeforeParen(name: string, sql: string, i: nat)
    requires OccursAt(sql, name + "(", i)
    ensures i + |name| < |sql| && sql[i + |name|] == '(' && EndsAt(sql, name, i + |name|)
  {
    var pat := name + "(";
    assert sql[i..i + |pat|][|name|] == '(';
    assert sql[i..i + |name|] == sql[i..i + |pat|][..|name|] == name;
  }

  lemma EndsBeforeParen(name: string, sql: string, q: nat)
    requires q < |sql| && sql[q] == '(' && EndsAt(sql, name, q)
    ensures OccursAt(sql, name + "(", q - |name|)
  {
  }

  /** The substring test sees exactly the names that stand directly, or one space, before some
      parenthesis of the statement; a name two spaces before it is missed. */
  lemma MatchesIff(name: string, sql: string)
    ensures Matches(name, sql) <==>
            exists q :: 0 <= q < |sql| && sql[q] == '(' && (EndsAt(sql, name, q) || EndsAt(sql, name + " ", q))
  {
    assert (name + " ") + "(" == name + " (";
    if Contains(sql, name + "(") {
      var i :| 0 <= i <= |sql| && OccursAt(sql, name + "(", i);
      OccursBeforeParen(name, sql, i);
    }
    if Contains(sql, name + " (") {
      var i :| 0 <= i <= |sql| && OccursAt(sql, name + " (", i);
      OccursBeforeParen(name + " ", sql, i);
    }
    if q :| 0 <= q < |sql| && sql[q] == '(' && (EndsAt(sql, name, q) || EndsAt(sql, name + " ", q)) {
      if EndsAt(sql, name, q) {
        EndsBeforeParen(name, sql, q);
      } else {
        EndsBeforeParen(name + " ", sql, q);
      }
    }
  }

  lemma EndsAtSuffix(sql: string, x: string, pat: string, q: nat)
    requires EndsAt(sql, x + pat, q)
    ensures EndsAt(sql, pat, q)
  {
    assert sql[q - |pat|..q] == sql[q - |x + pat|..q][|x|..] == pat;
  }

  /** A name registered first shadows every table whose name ends with it, directly before the
      parenthesis or one space away from it. */
  lemma SuffixShadows(slots: seq<Option<string>>, sql: string, x: string, name: string)
    requires slots != [] && slots[0] == Some(name) && FirstParen(sql) < |sql|
    requires EndsAt(sql, x + name, FirstParen(sql)) || EndsAt(sql, x + name + " ", FirstParen(sql))
    ensures FirstMatch(slots, sql) == Some(name)
  {
    var p := FirstParen(sql);
    if EndsAt(sql, x + name, p) {
      EndsAtSuffix(sql, x, name, p);
    } else {
      assert x + name + " " == x + (name + " ");
      EndsAtSuffix(sql, x, name + " ", p);
    }
    MatchesIff(name, sql);
  }

  /** The scan answers with the first registered name that matches, and with none only if none does. */
  lemma {:induction false} FirstMatchIs(slots: seq<Option<string>>, sql: string, w: string)
    ensures FirstMatch(slots, sql) == Some(w) <==>
            exists i :: 0 <= i < |slots| && slots[i] == Some(w) && Matches(w, sql) &&
                        forall j :: 0 <= j < i ==> slots[j] == None || !Matches(slots[j].value, sql)
    ensures FirstMatch(slots, sql) == None <==>
            forall i :: 0 <= i < |slots| && slots[i].Some? ==> !Matches(slots[i].value, sql)
  {
    if slots != [] {
      var rest := slots[1..];
      FirstMatchIs(rest, sql, w);
      if slots[0].Some? && Matches(slots[0].value, sql) {
        assert FirstMatch(slots, sql) == slots[0];
      } else {
        if FirstMatch(rest, sql) == Some(w) {
          var i :| 0 <= i < |rest| && rest[i] == Some(w) && Matches(w, sql) &&
                   forall j :: 0 <= j < i ==> rest[j] == None || !Matches(rest[j].value, sql);
          assert slots[i + 1] == Some(w);
          assert forall j :: 0 < j < i + 1 ==> slots[j] == rest[j - 1];
        }
        if i :| 0 <= i < |slots| && slots[i] == Some(w) && Matches(w, sql) &&
                forall j :: 0 <= j < i ==> slots[j] == None || !Matches(slots[j].value, sql) {
          assert rest[i - 1] == Some(w);
        }
        assert forall i :: 0 < i < |slots| ==> slots[i] == rest[i - 1];
      }
    }
  }
}
