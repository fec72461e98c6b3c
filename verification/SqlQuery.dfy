/** The SQL text builder, and how much of its input a text determines. */
module SqlQueries {

  datatype LogicalOperator = NONE | AND | OR | XOR | NOT

  datatype Condition = Condition(column: string, data: string, op: LogicalOperator)

  function LogicalOperatorToString(op: LogicalOperator): string {
    match op
    case NONE => ""
    case AND => "AND"
    case OR => "OR"
    case XOR => "XOR"
    case NOT => "NOT"
  }

  // ---------------------------------------------------------------- the texts

  /** Fields separated by ", ". */
  function FieldsText(fields: seq<string>): string
    requires fields != []
  {
    if |fields| == 1 then fields[0] else fields[0] + ", " + FieldsText(fields[1..])
  }

  /** Conditions one after the other. Each but the last is followed by its operator,
      with no space on either side. */
  function ConditionsText(cs: seq<Condition>, quote: char): string {
    if cs == [] then ""
    else
      cs[0].column + " = " + [quote] + cs[0].data + [quote]
      + (if |cs| > 1 then LogicalOperatorToString(cs[0].op) + ConditionsText(cs[1..], quote) else "")
  }

  function WhereText(cs: seq<Condition>, quote: char): string {
    if cs == [] then "" else " WHERE " + ConditionsText(cs, quote)
  }

  function FieldPart(fields: seq<string>): string {
    if fields == [] then "*" else FieldsText(fields)
  }

  function FromPart(table: string, cs: seq<Condition>): string {
    " FROM " + (table + WhereText(cs, '\''))
  }

  function SelectText(table: string, fields: seq<string>, cs: seq<Condition>): string {
    "SELECT " + (FieldPart(fields) + FromPart(table, cs))
  }

  function DeleteText(table: string, cs: seq<Condition>): string {
    "DELETE FROM " + (table + WhereText(cs, '"'))
  }

  /** n question marks separated by commas. */
  function MarksText(n: nat): string {
    if n == 0 then "" else if n == 1 then "?" else "?," + MarksText(n - 1)
  }

  function InsertText(table: string, labels: string, n: nat): string {
    "INSERT INTO " + (table + (" (" + (labels + (") VALUES (" + (MarksText(n) + ")")))))
  }

  // ---------------------------------------------------------------- the builders

  method MakeQueryForInsert(table: string, labels: string, n: nat) returns (query: string)
    ensures query == InsertText(table, labels, n)
  {
    query := "";
    query := query + ("INSERT INTO " + table + " ");
    query := query + ("(" + labels + ")");
    query := query + " VALUES (";
    query := AppendMarks(query, n);
    query := query + ")";
    InsertTextIs(table, labels, MarksText(n));
  }

  lemma InsertTextIs(table: string, labels: string, marks: string)
    ensures "" + ("INSERT INTO " + table + " ") + ("(" + labels + ")") + " VALUES (" + marks + ")"
            == "INSERT INTO " + (table + (" (" + (labels + (") VALUES (" + (marks + ")")))))
  {
  }

  method AppendMarks(query: string, n: nat) returns (extended: string)
    ensures extended == query + MarksText(n)
  {
    extended := query;
    var i := 0;
    while i < n
      invariant 0 <= i <= n
      invariant extended + MarksText(n - i) == query + MarksText(n)
    {
      ghost var before := extended;
      extended := extended + "?";
      if i + 1 < n {
        extended := extended + ",";
      }
      assert before + MarksText(n - i) == extended + MarksText(n - i - 1);
      i := i + 1;
    }
    assert MarksText(0) == "";
  }

  /** What one round of the loop over the conditions appends. */
  function OneCondition(cs: seq<Condition>, i: nat, quote: char): string
    requires i < |cs|
  {
    cs[i].column + " = " + [quote] + cs[i].data + [quote]
    + (if i + 1 != |cs| then LogicalOperatorToString(cs[i].op) else "")
  }

  lemma ConditionsStep(cs: seq<Condition>, i: nat, quote: char)
    requires i < |cs|
    ensures ConditionsText(cs[i..], quote) == OneCondition(cs, i, quote) + ConditionsText(cs[i + 1..], quote)
  {
  }

  /** The WHERE part, as both condition-taking builders append it. */
  method AppendConditions(query: string, cs: seq<Condition>, quote: char) returns (extended: string)
    ensures extended == query + WhereText(cs, quote)
  {
    extended := query;
    assert query + "" == query;
    if |cs| > 0 {
      extended := extended + " WHERE ";
      ghost var all := extended + ConditionsText(cs, quote);
      assert cs[0..] == cs;
      for i := 0 to |cs|
        invariant extended + ConditionsText(cs[i..], quote) == all
      {
        ConditionsStep(cs, i, quote);
        ghost var before := extended;
        extended := extended + (cs[i].column + " = " + [quote] + cs[i].data + [quote]);
        if i + 1 != |cs| {
          extended := extended + LogicalOperatorToString(cs[i].op);
        }
        assert extended == before + OneCondition(cs, i, quote);
      }
      assert cs[|cs|..] == [] && extended + "" == extended;
      Reassociate(query, " WHERE ", ConditionsText(cs, quote));
    }
  }

  lemma Reassociate(a: string, b: string, c: string)
    ensures a + b + c == a + (b + c)
  {
  }

  lemma FieldsStep(fields: seq<string>, i: nat)
    requires i < |fields|
    ensures FieldsText(fields[i..])
            == if i + 1 == |fields| then fields[i] else fields[i] + ", " + FieldsText(fields[i + 1..])
  {
  }

  method AppendFields(query: string, fields: seq<string>) returns (extended: string)
    ensures extended == query + FieldPart(fields)
  {
    extended := query;
    if |fields| <= 0 {
      extended := extended + "*";
    } else {
      ghost var all := extended + FieldsText(fields);
      assert fields[0..] == fields;
      for i := 0 to |fields|
        invariant all == if i < |fields| then extended + FieldsText(fields[i..]) else extended
      {
        FieldsStep(fields, i);
        extended := extended + fields[i];
        if i + 1 != |fields| {
          extended := extended + ", ";
        }
      }
    }
  }

  method MakeQueryForSelect(table: string, fields: seq<string>, cs: seq<Condition>) returns (query: string)
    ensures query == SelectText(table, fields, cs)
  {
    query := "SELECT ";
    query := AppendFields(query, fields);
    query := query + (" FROM " + table);
    query := AppendConditions(query, cs, '\'');
    SelectTextIs(FieldPart(fields), table, WhereText(cs, '\''));
  }

  lemma SelectTextIs(fields: string, table: string, rest: string)
    ensures "SELECT " + fields + (" FROM " + table) + rest == "SELECT " + (fields + (" FROM " + (table + rest)))
  {
  }

  method MakeQueryForDelete(table: string, cs: seq<Condition>) returns (query: string)
    ensures query == DeleteText(table, cs)
  {
    query := "DELETE FROM " + table;
    query := AppendConditions(query, cs, '"');
    Reassociate("DELETE FROM ", table, WhereText(cs, '"'));
  }

  // ---------------------------------------------------------------- what the texts read

  /** The SQL word of an operator. */
  ghost predicate Spells(word: string, op: LogicalOperator) {
    || (word == "" && op == NONE)
    || (word == "AND" && op == AND)
    || (word == "OR" && op == OR)
    || (word == "XOR" && op == XOR)
    || (word == "NOT" && op == NOT)
  }

  /** A single condition: the column, an equals sign between spaces, the quoted data. */
  lemma OneConditionReads(c: Condition, quote: char)
    ensures ConditionsText([c], quote) == c.column + " = " + [quote] + c.data + [quote]
  {
  }

  /** Between the closing quote of condition i and the column of condition i + 1 stands
      the SQL word of condition i's operator and nothing else. */
  lemma {:induction false} OperatorStandsBetween(cs: seq<Condition>, quote: char, i: nat) returns (word: string)
    requires i + 1 < |cs|
    ensures Spells(word, cs[i].op)
    ensures ConditionsText(cs, quote)
            == ConditionsText(cs[..i + 1], quote) + word + ConditionsText(cs[i + 1..], quote)
    decreases i
  {
    if i == 0 {
      word := LogicalOperatorToString(cs[0].op);
      assert cs[..1] == [cs[0]];
      OneConditionReads(cs[0], quote);
      Reassociate(ConditionsText([cs[0]], quote), word, ConditionsText(cs[1..], quote));
    } else {
      word := OperatorStandsBetween(cs[1..], quote, i - 1);
      var first := cs[0].column + " = " + [quote] + cs[0].data + [quote];
      var between := LogicalOperatorToString(cs[0].op);
      assert cs[1..][..i] == cs[..i + 1][1..] && cs[1..][i..] == cs[i + 1..];
      FrontJoins(first, between, ConditionsText(cs[1..][..i], quote), word, ConditionsText(cs[i + 1..], quote));
    }
  }

  lemma FrontJoins(first: string, between: string, a: string, word: string, b: string)
    ensures first + (between + (a + word + b)) == (first + (between + a)) + word + b
  {
  }

  /** Between two groups of fields stands ", ". */
  lemma {:induction false} CommaStandsBetween(f: seq<string>, g: seq<string>)
    requires f != [] && g != []
    ensures FieldsText(f + g) == FieldsText(f) + ", " + FieldsText(g)
    decreases |f|
  {
    if |f| == 1 {
      assert f + g == [f[0]] + g && (f + g)[1..] == g;
    } else {
      assert (f + g)[1..] == f[1..] + g;
      CommaStandsBetween(f[1..], g);
      FrontJoins(f[0], ", ", FieldsText(f[1..]), ", ", FieldsText(g));
    }
  }

  /** The marks of an INSERT are n question marks with single commas between them. */
  lemma {:induction false} MarksRead(n: nat)
    ensures |MarksText(n)| == if n == 0 then 0 else 2 * n - 1
    ensures forall k :: 0 <= k < |MarksText(n)| ==> MarksText(n)[k] == if k % 2 == 0 then '?' else ','
  {
    if n > 1 {
      MarksRead(n - 1);
      var rest := MarksText(n - 1);
      assert MarksText(n) == "?," + rest;
      forall k | 2 <= k < |MarksText(n)|
        ensures MarksText(n)[k] == if k % 2 == 0 then '?' else ','
      {
        assert MarksText(n)[k] == rest[k - 2];
      }
    }
  }

  /** The frames of the three statements. */
  lemma SelectReads(table: string, f: seq<string>, cs: seq<Condition>)
    ensures f == [] && cs == [] ==> SelectText(table, f, cs) == "SELECT * FROM " + table
    ensures f != [] && cs == [] ==> SelectText(table, f, cs) == "SELECT " + FieldsText(f) + " FROM " + table
    ensures f == [] && cs != [] ==>
              SelectText(table, f, cs) == "SELECT * FROM " + table + " WHERE " + ConditionsText(cs, '\'')
    ensures f != [] && cs != [] ==>
              SelectText(table, f, cs)
              == "SELECT " + FieldsText(f) + " FROM " + table + " WHERE " + ConditionsText(cs, '\'')
    ensures |f| == 1 ==> FieldsText(f) == f[0]
  {
    SelectFrame(FieldPart(f), table, ConditionsText(cs, '\''));
    assert table + "" == table;
  }

  lemma SelectFrame(fields: string, table: string, conditions: string)
    ensures "SELECT " + (fields + (" FROM " + table)) == "SELECT " + fields + " FROM " + table
    ensures "SELECT " + (fields + (" FROM " + (table + (" WHERE " + conditions))))
            == "SELECT " + fields + " FROM " + table + " WHERE " + conditions
    ensures "SELECT " + "*" + " FROM " + table == "SELECT * FROM " + table
  {
  }

  lemma DeleteReads(table: string, cs: seq<Condition>)
    ensures cs == [] ==> DeleteText(table, cs) == "DELETE FROM " + table
    ensures cs != [] ==> DeleteText(table, cs) == "DELETE FROM " + table + " WHERE " + ConditionsText(cs, '"')
  {
    assert table + "" == table;
    assert cs != [] ==>
        "DELETE FROM " + (table + (" WHERE " + ConditionsText(cs, '"')))
        == "DELETE FROM " + table + " WHERE " + ConditionsText(cs, '"');
  }

  lemma InsertReads(table: string, labels: string, n: nat)
    ensures InsertText(table, labels, n)
            == "INSERT INTO " + table + " (" + labels + ") VALUES (" + MarksText(n) + ")"
  {
    InsertFrame(table, labels, MarksText(n));
  }

  lemma InsertFrame(table: string, labels: string, marks: string)
    ensures "INSERT INTO " + (table + (" (" + (labels + (") VALUES (" + (marks + ")")))))
            == "INSERT INTO " + table + " (" + labels + ") VALUES (" + marks + ")"
  {
  }

  // ---------------------------------------------------------------- decoding

  predicate NameChar(c: char) {
    'a' <= c <= 'z' || 'A' <= c <= 'Z' || '0' <= c <= '9' || c == '_'
  }

  /** Only characters of a class. */
  ghost predicate Within(s: string, inside: char -> bool) {
    forall i :: 0 <= i < |s| ==> inside(s[i])
  }

  /** Empty, or starting outside the class. */
  ghost predicate Stops(s: string, inside: char -> bool) {
    s == "" || !inside(s[0])
  }

  /** An identifier of either case. */
  ghost predicate IsName(s: string) {
    s != "" && Within(s, NameChar)
  }

  ghost predicate NotQuote(s: string, quote: char) {
    Within(s, c => c != quote)
  }

  ghost predicate Plain(cs: seq<Condition>, quote: char) {
    forall i :: 0 <= i < |cs| ==> IsName(cs[i].column) && NotQuote(cs[i].data, quote)
  }

  ghost predicate AllNames(fields: seq<string>) {
    forall i :: 0 <= i < |fields| ==> IsName(fields[i])
  }

  lemma WordNotShorter(a: string, x: string, b: string, y: string, inside: char -> bool)
    requires a + x == b + y && Within(b, inside) && Stops(x, inside)
    ensures |a| >= |b|
  {
    assert x != "" ==> (a + x)[|a|] == x[0];
  }

  /** A word inside a character class is cut off where the class ends. */
  lemma WordCancels(a: string, x: string, b: string, y: string, inside: char -> bool)
    requires a + x == b + y
    requires Within(a, inside) && Within(b, inside) && Stops(x, inside) && Stops(y, inside)
    ensures a == b && x == y
  {
    WordNotShorter(a, x, b, y, inside);
    WordNotShorter(b, y, a, x, inside);
    assert a == (a + x)[..|a|] && b == (b + y)[..|b|];
    assert x == (a + x)[|a|..] && y == (b + y)[|b|..];
  }

  lemma PrefixCancels(p: string, x: string, y: string)
    requires p + x == p + y
    ensures x == y
  {
    assert x == (p + x)[|p|..] && y == (p + y)[|p|..];
  }

  lemma {:induction false} FieldsDecode(f: seq<string>, x: string, g: seq<string>, y: string)
    requires f != [] && g != [] && AllNames(f) && AllNames(g)
    requires x != "" && x[0] == ' ' && y != "" && y[0] == ' '
    requires FieldsText(f) + x == FieldsText(g) + y
    ensures f == g && x == y
    decreases |f|
  {
    var restF := if |f| == 1 then x else ", " + (FieldsText(f[1..]) + x);
    var restG := if |g| == 1 then y else ", " + (FieldsText(g[1..]) + y);
    assert FieldsText(f) + x == f[0] + restF;
    assert FieldsText(g) + y == g[0] + restG;
    WordCancels(f[0], restF, g[0], restG, NameChar);
    assert |f| == 1 <==> restF[0] == ' ';
    assert |g| == 1 <==> restG[0] == ' ';
    if |f| > 1 {
      PrefixCancels(", ", FieldsText(f[1..]) + x, FieldsText(g[1..]) + y);
      FieldsDecode(f[1..], x, g[1..], y);
      assert f == [f[0]] + f[1..] && g == [g[0]] + g[1..];
    }
  }

  // ---------------------------------------------------------------- words

  /** The word in front of the i-th comparison: the operator printed before it, which
      touches the column, and the column. `lead` stands before the first. */
  ghost function WordAt(lead: string, cs: seq<Condition>, i: nat): string
    requires i < |cs|
  {
    (if i == 0 then lead else LogicalOperatorToString(cs[i - 1].op)) + cs[i].column
  }

  /** What a text does tell: the number of conditions, the data and the words. */
  ghost predicate SameWords(lead: string, cs: seq<Condition>, lead': string, ds: seq<Condition>) {
    && |cs| == |ds|
    && forall i :: 0 <= i < |cs| ==> cs[i].data == ds[i].data && WordAt(lead, cs, i) == WordAt(lead', ds, i)
  }

  /** What follows the closing quote of the first condition. */
  ghost function AfterFirst(cs: seq<Condition>, quote: char): string
    requires cs != []
  {
    if |cs| > 1 then LogicalOperatorToString(cs[0].op) + ConditionsText(cs[1..], quote) else ""
  }

  /** What stands between a column and its data. */
  ghost function Opening(quote: char): (s: string)
    ensures s != "" && !NameChar(s[0])
  {
    " = " + [quote]
  }

  lemma FirstCondition(lead: string, cs: seq<Condition>, quote: char)
    requires cs != []
    ensures lead + ConditionsText(cs, quote)
            == (lead + cs[0].column) + (Opening(quote) + (cs[0].data + ([quote] + AfterFirst(cs, quote))))
  {
    var rest := Opening(quote) + (cs[0].data + ([quote] + AfterFirst(cs, quote)));
    FivePieces(cs[0].column, [quote], cs[0].data, AfterFirst(cs, quote));
    Reassociate(lead, cs[0].column, rest);
  }

  lemma FivePieces(column: string, quote: string, data: string, rest: string)
    ensures column + " = " + quote + data + quote + rest == column + ((" = " + quote) + (data + (quote + rest)))
  {
  }

  lemma WordsFromFirst(lead: string, cs: seq<Condition>, lead': string, ds: seq<Condition>)
    requires |cs| > 1 && |ds| > 1
    ensures SameWords(lead, cs, lead', ds) <==>
            && cs[0].data == ds[0].data
            && lead + cs[0].column == lead' + ds[0].column
            && SameWords(LogicalOperatorToString(cs[0].op), cs[1..], LogicalOperatorToString(ds[0].op), ds[1..])
  {
    var (op, op') := (LogicalOperatorToString(cs[0].op), LogicalOperatorToString(ds[0].op));
    assert forall i :: 1 <= i < |cs| ==> cs[i] == cs[1..][i - 1] && WordAt(lead, cs, i) == WordAt(op, cs[1..], i - 1);
    assert forall i :: 1 <= i < |ds| ==> ds[i] == ds[1..][i - 1] && WordAt(lead', ds, i) == WordAt(op', ds[1..], i - 1);
  }

  /** A word, the opening " = " with its quote, quote-free data, a quote and a rest. */
  lemma PiecesDecode(a: string, x: string, r: string, b: string, y: string, s: string, quote: char)
    requires Within(a, NameChar) && Within(b, NameChar) && NotQuote(x, quote) && NotQuote(y, quote)
    requires a + (Opening(quote) + (x + ([quote] + r))) == b + (Opening(quote) + (y + ([quote] + s)))
    ensures a == b && x == y && r == s
  {
    WordCancels(a, Opening(quote) + (x + ([quote] + r)), b, Opening(quote) + (y + ([quote] + s)), NameChar);
    PrefixCancels(Opening(quote), x + ([quote] + r), y + ([quote] + s));
    WordCancels(x, [quote] + r, y, [quote] + s, c => c != quote);
    PrefixCancels([quote], r, s);
  }

  lemma FirstFollows(cs: seq<Condition>, quote: char)
    requires cs != [] && Plain(cs, quote)
    ensures AfterFirst(cs, quote) != "" <==> |cs| > 1
  {
    if |cs| > 1 {
      assert cs[1..][0].column == cs[1].column != "";
    }
  }

  /** The head of a text: first word, first data and what follows. */
  lemma HeadDecodes(lead: string, cs: seq<Condition>, lead': string, ds: seq<Condition>, quote: char)
    requires cs != [] && ds != [] && Plain(cs, quote) && Plain(ds, quote)
    requires Within(lead, NameChar) && Within(lead', NameChar)
    requires lead + ConditionsText(cs, quote) == lead' + ConditionsText(ds, quote)
    ensures lead + cs[0].column == lead' + ds[0].column && cs[0].data == ds[0].data
    ensures AfterFirst(cs, quote) == AfterFirst(ds, quote)
    ensures |cs| > 1 <==> |ds| > 1
  {
    FirstCondition(lead, cs, quote);
    FirstCondition(lead', ds, quote);
    FirstFollows(cs, quote);
    FirstFollows(ds, quote);
    PiecesDecode(lead + cs[0].column, cs[0].data, AfterFirst(cs, quote),
                 lead' + ds[0].column, ds[0].data, AfterFirst(ds, quote), quote);
  }

  lemma PlainTail(cs: seq<Condition>, quote: char)
    requires cs != [] && Plain(cs, quote)
    ensures Plain(cs[1..], quote) && Within(LogicalOperatorToString(cs[0].op), NameChar)
  {
    assert forall i :: 0 <= i < |cs[1..]| ==> cs[1..][i] == cs[i + 1];
  }

  lemma {:induction false} WordsDecode(lead: string, cs: seq<Condition>, lead': string, ds: seq<Condition>, quote: char)
    requires cs != [] && ds != [] && Plain(cs, quote) && Plain(ds, quote)
    requires Within(lead, NameChar) && Within(lead', NameChar)
    requires lead + ConditionsText(cs, quote) == lead' + ConditionsText(ds, quote)
    ensures SameWords(lead, cs, lead', ds)
    decreases |cs|
  {
    HeadDecodes(lead, cs, lead', ds, quote);
    if |cs| > 1 {
      PlainTail(cs, quote);
      PlainTail(ds, quote);
      WordsDecode(LogicalOperatorToString(cs[0].op), cs[1..], LogicalOperatorToString(ds[0].op), ds[1..], quote);
      WordsFromFirst(lead, cs, lead', ds);
    }
  }

  lemma {:induction false} WordsDetermine(lead: string, cs: seq<Condition>, lead': string, ds: seq<Condition>, quote: char)
    requires cs != [] && SameWords(lead, cs, lead', ds)
    ensures lead + ConditionsText(cs, quote) == lead' + ConditionsText(ds, quote)
    decreases |cs|
  {
    FirstCondition(lead, cs, quote);
    FirstCondition(lead', ds, quote);
    assert WordAt(lead, cs, 0) == WordAt(lead', ds, 0);
    if |cs| > 1 {
      WordsFromFirst(lead, cs, lead', ds);
      WordsDetermine(LogicalOperatorToString(cs[0].op), cs[1..], LogicalOperatorToString(ds[0].op), ds[1..], quote);
    }
  }

  /** A table name and the conditions behind it. */
  lemma TableAndWhereDecode(t: string, cs: seq<Condition>, u: string, ds: seq<Condition>, quote: char)
    requires IsName(t) && IsName(u) && Plain(cs, quote) && Plain(ds, quote)
    ensures t + WhereText(cs, quote) == u + WhereText(ds, quote) <==> t == u && SameWords("", cs, "", ds)
  {
    assert "" + ConditionsText(cs, quote) == ConditionsText(cs, quote);
    assert "" + ConditionsText(ds, quote) == ConditionsText(ds, quote);
    if t + WhereText(cs, quote) == u + WhereText(ds, quote) {
      WordCancels(t, WhereText(cs, quote), u, WhereText(ds, quote), NameChar);
      if cs != [] && ds != [] {
        PrefixCancels(" WHERE ", ConditionsText(cs, quote), ConditionsText(ds, quote));
        WordsDecode("", cs, "", ds, quote);
      }
    }
    if SameWords("", cs, "", ds) && cs != [] {
      WordsDetermine("", cs, "", ds, quote);
    }
  }

  /** Two SELECT inputs with identifiers and quote-free data give the same text exactly
      when they agree on table, fields, data and words. */
  lemma SelectDecodes(t: string, f: seq<string>, cs: seq<Condition>, u: string, g: seq<string>, ds: seq<Condition>)
    requires IsName(t) && IsName(u) && AllNames(f) && AllNames(g)
    requires Plain(cs, '\'') && Plain(ds, '\'')
    ensures SelectText(t, f, cs) == SelectText(u, g, ds) <==> t == u && f == g && SameWords("", cs, "", ds)
  {
    TableAndWhereDecode(t, cs, u, ds, '\'');
    if SelectText(t, f, cs) == SelectText(u, g, ds) {
      PrefixCancels("SELECT ", FieldPart(f) + FromPart(t, cs), FieldPart(g) + FromPart(u, ds));
      FieldPartDecodes(f, FromPart(t, cs), g, FromPart(u, ds));
      PrefixCancels(" FROM ", t + WhereText(cs, '\''), u + WhereText(ds, '\''));
    }
  }

  lemma FieldPartStarts(f: seq<string>)
    requires AllNames(f)
    ensures FieldPart(f) != "" && (f == [] <==> !NameChar(FieldPart(f)[0]))
  {
  }

  lemma FieldPartDecodes(f: seq<string>, x: string, g: seq<string>, y: string)
    requires AllNames(f) && AllNames(g)
    requires x != "" && x[0] == ' ' && y != "" && y[0] == ' '
    requires FieldPart(f) + x == FieldPart(g) + y
    ensures f == g && x == y
  {
    FieldPartStarts(f);
    FieldPartStarts(g);
    assert FieldPart(f)[0] == (FieldPart(f) + x)[0] && FieldPart(g)[0] == (FieldPart(g) + y)[0];
    if f == [] {
      PrefixCancels("*", x, y);
    } else {
      FieldsDecode(f, x, g, y);
    }
  }

  lemma DeleteDecodes(t: string, cs: seq<Condition>, u: string, ds: seq<Condition>)
    requires IsName(t) && IsName(u) && Plain(cs, '"') && Plain(ds, '"')
    ensures DeleteText(t, cs) == DeleteText(u, ds) <==> t == u && SameWords("", cs, "", ds)
  {
    TableAndWhereDecode(t, cs, u, ds, '"');
    if DeleteText(t, cs) == DeleteText(u, ds) {
      PrefixCancels("DELETE FROM ", t + WhereText(cs, '"'), u + WhereText(ds, '"'));
    }
  }

  /** An INSERT text determines the table, the column list and the column count. */
  lemma InsertDecodes(t: string, k: string, m: nat, u: string, l: string, n: nat)
    requires IsName(t) && IsName(u) && Within(k, c => c != ')') && Within(l, c => c != ')')
    ensures InsertText(t, k, m) == InsertText(u, l, n) <==> t == u && k == l && m == n
  {
    if InsertText(t, k, m) == InsertText(u, l, n) {
      var valuesM, valuesN := ") VALUES (" + (MarksText(m) + ")"), ") VALUES (" + (MarksText(n) + ")");
      PrefixCancels("INSERT INTO ", t + (" (" + (k + valuesM)), u + (" (" + (l + valuesN)));
      WordCancels(t, " (" + (k + valuesM), u, " (" + (l + valuesN), NameChar);
      PrefixCancels(" (", k + valuesM, l + valuesN);
      WordCancels(k, valuesM, l, valuesN, c => c != ')');
      MarksRead(m);
      MarksRead(n);
    }
  }

  // ---------------------------------------------------------------- unique decodability

  /** Agreement but for the operator of the last condition, which is never printed. */
  ghost predicate SameButLastOperator(cs: seq<Condition>, ds: seq<Condition>) {
    && |cs| == |ds|
    && (forall i :: 0 <= i < |cs| ==> cs[i].column == ds[i].column && cs[i].data == ds[i].data)
    && forall i :: 0 <= i < |cs| - 1 ==> cs[i].op == ds[i].op
  }

  /** One label reads as an operator followed by another label (or by itself). */
  ghost predicate Swallows(labels: iset<string>) {
    exists l, m, op :: l in labels && m in labels && op != NONE && l == LogicalOperatorToString(op) + m
  }

  ghost predicate ColumnsIn(cs: seq<Condition>, labels: iset<string>) {
    forall i :: 0 <= i < |cs| ==> cs[i].column in labels
  }

  /** Over labels of which none swallows another, a word splits in one way. */
  lemma WordSplits(a: LogicalOperator, l: string, b: LogicalOperator, m: string, labels: iset<string>)
    requires l in labels && m in labels && !Swallows(labels)
    requires LogicalOperatorToString(a) + l == LogicalOperatorToString(b) + m
    ensures a == b && l == m
  {
    var (opA, opB) := (LogicalOperatorToString(a), LogicalOperatorToString(b));
    assert opA == "" ==> opA + l == l;
    assert opB == "" ==> opB + m == m;
    assert opA != "" ==> (opA + l)[0] == opA[0];
    assert opB != "" ==> (opB + m)[0] == opB[0];
    if a == b {
      PrefixCancels(opA, l, m);
    }
  }

  lemma WordTellsOperator(cs: seq<Condition>, ds: seq<Condition>, labels: iset<string>, i: nat)
    requires ColumnsIn(cs, labels) && ColumnsIn(ds, labels) && !Swallows(labels)
    requires i < |cs| == |ds|
    ensures WordAt("", cs, i) == WordAt("", ds, i) <==>
            cs[i].column == ds[i].column && (i > 0 ==> cs[i - 1].op == ds[i - 1].op)
  {
    if i == 0 {
      EmptyPrefix(cs[i].column);
      EmptyPrefix(ds[i].column);
    } else if WordAt("", cs, i) == WordAt("", ds, i) {
      WordSplits(cs[i - 1].op, cs[i].column, ds[i - 1].op, ds[i].column, labels);
    }
  }

  lemma EmptyPrefix(s: string)
    ensures "" + s == s
  {
  }

  lemma WordsTellOperators(cs: seq<Condition>, ds: seq<Condition>, labels: iset<string>)
    requires ColumnsIn(cs, labels) && ColumnsIn(ds, labels) && !Swallows(labels)
    ensures SameWords("", cs, "", ds) <==> SameButLastOperator(cs, ds)
  {
    if |cs| == |ds| {
      forall i | 0 <= i < |cs|
        ensures WordAt("", cs, i) == WordAt("", ds, i) <==>
                cs[i].column == ds[i].column && (i > 0 ==> cs[i - 1].op == ds[i - 1].op)
      {
        WordTellsOperator(cs, ds, labels, i);
      }
      if SameWords("", cs, "", ds) {
        forall i | 0 <= i < |cs| - 1 ensures cs[i].op == ds[i].op {
          WordTellsOperator(cs, ds, labels, i + 1);
        }
      }
    }
  }

  /** Two conditions on m joined by op, and a condition on m followed by one on the
      label that reads as op and m. */
  lemma SwallowedOperator(l: string, m: string, op: LogicalOperator)
    requires op != NONE && l == LogicalOperatorToString(op) + m
    ensures var (cs, ds) := ([Condition(m, "", op), Condition(m, "", NONE)],
                             [Condition(m, "", NONE), Condition(l, "", NONE)]);
            SameWords("", cs, "", ds) && !SameButLastOperator(cs, ds)
  {
    var (cs, ds) := ([Condition(m, "", op), Condition(m, "", NONE)], [Condition(m, "", NONE), Condition(l, "", NONE)]);
    assert WordAt("", cs, 1) == l && WordAt("", ds, 1) == "" + l;
    assert cs[0].op != ds[0].op;
  }

  /** If the SELECT texts are equal, so are the inputs, the last operator excepted. */
  ghost predicate SelectTellsApart(t: string, f: seq<string>, cs: seq<Condition>, u: string, g: seq<string>, ds: seq<Condition>) {
    SelectText(t, f, cs) == SelectText(u, g, ds) ==> t == u && f == g && SameButLastOperator(cs, ds)
  }

  ghost predicate DeleteTellsApart(t: string, cs: seq<Condition>, u: string, ds: seq<Condition>) {
    DeleteText(t, cs) == DeleteText(u, ds) ==> t == u && SameButLastOperator(cs, ds)
  }

  /** Conditions a text can be read over: columns from the labels, data without the quote. */
  ghost predicate Over(labels: iset<string>, cs: seq<Condition>, quote: char) {
    Plain(cs, quote) && ColumnsIn(cs, labels)
  }

  ghost predicate SelectIsDecodable(labels: iset<string>) {
    forall t, f, cs, u, g, ds ::
      && IsName(t) && IsName(u) && AllNames(f) && AllNames(g)
      && Over(labels, cs, '\'') && Over(labels, ds, '\'')
      ==> SelectTellsApart(t, f, cs, u, g, ds)
  }

  ghost predicate DeleteIsDecodable(labels: iset<string>) {
    forall t, cs, u, ds ::
      && IsName(t) && IsName(u)
      && Over(labels, cs, '"') && Over(labels, ds, '"')
      ==> DeleteTellsApart(t, cs, u, ds)
  }

  lemma SwallowingIsAmbiguous(labels: iset<string>, quote: char)
    returns (cs: seq<Condition>, ds: seq<Condition>)
    requires Swallows(labels) && forall l :: l in labels ==> IsName(l)
    ensures Over(labels, cs, quote) && Over(labels, ds, quote)
    ensures SameWords("", cs, "", ds) && !SameButLastOperator(cs, ds)
  {
    var l, m, op :| l in labels && m in labels && op != NONE && l == LogicalOperatorToString(op) + m;
    cs, ds := [Condition(m, "", op), Condition(m, "", NONE)], [Condition(m, "", NONE), Condition(l, "", NONE)];
    SwallowedOperator(l, m, op);
  }

  lemma SelectIsAmbiguous(t: string, cs: seq<Condition>, ds: seq<Condition>)
    requires IsName(t) && Plain(cs, '\'') && Plain(ds, '\'')
    requires SameWords("", cs, "", ds) && !SameButLastOperator(cs, ds)
    ensures !SelectTellsApart(t, [], cs, t, [], ds)
  {
    SelectDecodes(t, [], cs, t, [], ds);
  }

  lemma DeleteIsAmbiguous(t: string, cs: seq<Condition>, ds: seq<Condition>)
    requires IsName(t) && Plain(cs, '"') && Plain(ds, '"')
    requires SameWords("", cs, "", ds) && !SameButLastOperator(cs, ds)
    ensures !DeleteTellsApart(t, cs, t, ds)
  {
    DeleteDecodes(t, cs, t, ds);
  }

  /** SELECT texts over a set of identifier labels decode uniquely exactly when no
      label reads as an operator followed by a label of the set. */
  lemma SelectIsDecodableIff(labels: iset<string>)
    requires forall l :: l in labels ==> IsName(l)
    ensures SelectIsDecodable(labels) <==> !Swallows(labels)
  {
    if Swallows(labels) {
      var cs, ds := SwallowingIsAmbiguous(labels, '\'');
      SelectIsAmbiguous("t", cs, ds);
    } else {
      SelectDecodesOver(labels);
    }
  }

  lemma SelectDecodesOver(labels: iset<string>)
    requires !Swallows(labels)
    ensures SelectIsDecodable(labels)
  {
    forall t, f, cs, u, g, ds |
      && IsName(t) && IsName(u) && AllNames(f) && AllNames(g)
      && Over(labels, cs, '\'') && Over(labels, ds, '\'')
      ensures SelectTellsApart(t, f, cs, u, g, ds)
    {
      SelectDecodes(t, f, cs, u, g, ds);
      WordsTellOperators(cs, ds, labels);
    }
  }

  /** The same for DELETE texts. */
  lemma DeleteIsDecodableIff(labels: iset<string>)
    requires forall l :: l in labels ==> IsName(l)
    ensures DeleteIsDecodable(labels) <==> !Swallows(labels)
  {
    if Swallows(labels) {
      var cs, ds := SwallowingIsAmbiguous(labels, '"');
      DeleteIsAmbiguous("t", cs, ds);
    } else {
      DeleteDecodesOver(labels);
    }
  }

  lemma DeleteDecodesOver(labels: iset<string>)
    requires !Swallows(labels)
    ensures DeleteIsDecodable(labels)
  {
    forall t, cs, u, ds |
      && IsName(t) && IsName(u)
      && Over(labels, cs, '"') && Over(labels, ds, '"')
      ensures DeleteTellsApart(t, cs, u, ds)
    {
      DeleteDecodes(t, cs, u, ds);
      WordsTellOperators(cs, ds, labels);
    }
  }

  /** Labels without an uppercase letter in front never swallow one another. */
  lemma LowercaseIsEnough(labels: iset<string>)
    requires forall l :: l in labels ==> IsName(l) && !('A' <= l[0] <= 'Z')
    ensures !Swallows(labels) && SelectIsDecodable(labels) && DeleteIsDecodable(labels)
  {
    forall l, m, op | l in labels && m in labels && op != NONE
      ensures l != LogicalOperatorToString(op) + m
    {
      assert (LogicalOperatorToString(op) + m)[0] == LogicalOperatorToString(op)[0];
    }
    SelectIsDecodableIff(labels);
    DeleteIsDecodableIff(labels);
  }

  /** A collision: the labels "b" and "ANDb". */
  lemma UppercaseLabelsCollide()
    ensures Swallows(iset{"b", "ANDb"})
    ensures !SelectIsDecodable(iset{"b", "ANDb"}) && !DeleteIsDecodable(iset{"b", "ANDb"})
  {
    var labels := iset{"b", "ANDb"};
    assert "ANDb" in labels && "b" in labels && "ANDb" == LogicalOperatorToString(AND) + "b";
    SelectIsDecodableIff(labels);
    DeleteIsDecodableIff(labels);
  }
}
