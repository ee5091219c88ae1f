/** The SQL text of ledger statements: the printers UpsertDML and DeleteDML, and a reader of ANSI literals
    (character literals: section 5.3 of ISO/IEC 9075-2; hexadecimal: section 8 of RFC 4648). */
module SqlText {
  import opened Wrappers
  import opened Tables
  import opened Names

  const DML_TX_BEGIN_KEY := "--- BEGIN"
  const DML_TX_END_KEY := "--- COMMIT"

  // ---------- printing ----------

  function DigitChar(d: int): char
    requires 0 <= d < 10
  {
    '0' + d as char
  }

  function Decimal(n: nat): string {
    if n < 10 then [DigitChar(n)] else Decimal(n / 10) + [DigitChar(n % 10)]
  }

  function HexChar(d: int): char
    requires 0 <= d < 16
  {
    if d < 10 then '0' + d as char else 'a' + (d - 10) as char
  }

  function Hex(bytes: seq<byte>): string {
    if bytes == [] then "" else [HexChar(bytes[0] / 16), HexChar(bytes[0] % 16)] + Hex(bytes[1..])
  }

  /** strings.Replace(s, "'", "''", -1). */
  function DoubleQuotes(s: string): string {
    if s == "" then "" else (if s[0] == '\'' then "''" else [s[0]]) + DoubleQuotes(s[1..])
  }

  function SQLQuote(v: Value): string {
    match v
    case Null => "NULL"
    case Int(n) => if n < 0 then "-" + Decimal(-n) else Decimal(n)
    case Bool(b) => if b then "true" else "false"
    case Str(s) => "'" + (DoubleQuotes(s) + "'")
    case Blob(bytes) => "x'" + (Hex(bytes) + "'")
  }

  function Dblquote(s: string): string {
    "\"" + (s + "\"")
  }

  /** strings.Join of the quoted names with ",". */
  function NamesSql(names: seq<string>): string {
    if names == [] then "" else Dblquote(names[0]) + MoreNames(names[1..])
  }

  function MoreNames(names: seq<string>): string {
    if names == [] then "" else "," + (Dblquote(names[0]) + MoreNames(names[1..]))
  }

  function ValuesSql(values: seq<Value>): string {
    if values == [] then "" else SQLQuote(values[0]) + MoreValues(values[1..])
  }

  function MoreValues(values: seq<Value>): string {
    if values == [] then "" else "," + (SQLQuote(values[0]) + MoreValues(values[1..]))
  }

  function PairSql(field: string, value: Value): string {
    Dblquote(field) + (" = " + SQLQuote(value))
  }

  function PairsSql(fields: seq<string>, values: seq<Value>): string
    requires |fields| == |values|
  {
    if fields == [] then "" else PairSql(fields[0], values[0]) + MorePairs(fields[1..], values[1..])
  }

  function MorePairs(fields: seq<string>, values: seq<Value>): string
    requires |fields| == |values|
  {
    if fields == [] then "" else " AND " + (PairSql(fields[0], values[0]) + MorePairs(fields[1..], values[1..]))
  }

  /** Statements whose values match their fields one for one. */
  predicate Paired(st: Statement) {
    st.Row? ==> |st.dml.fields| == |st.dml.values|
  }

  function UpsertHead(table: string, fields: seq<string>): string {
    "REPLACE INTO " + (table + (" (" + (NamesSql(fields) + ") VALUES(")))
  }

  function DeleteHead(table: string): string {
    "DELETE FROM " + (table + " WHERE ")
  }

  /** The text that the ledger stores for a statement. */
  function Text(st: Statement): string
    requires Paired(st)
  {
    match st
    case TxBegin => DML_TX_BEGIN_KEY
    case TxEnd => DML_TX_END_KEY
    case Row(Upsert(table, fields, values)) =>
      UpsertHead(table, fields) + (ValuesSql(values) + ")")
    case Row(Delete(table, fields, values)) =>
      DeleteHead(table) + PairsSql(fields, values)
  }

  /** The part of MetaTable that the printers use. */
  datatype MetaTable = MetaTable(family: string, table: string, fields: seq<string>, key: seq<string>)

  datatype SqlGenError = WrongValueCount | UnknownField

  /** The loop of UpsertDML. */
  method WriteValues(head: string, values: seq<Value>) returns (buf: string)
    ensures buf == head + ValuesSql(values)
  {
    buf := head;
    for i := 0 to |values|
      invariant buf + (if i == 0 then ValuesSql(values) else MoreValues(values[i..])) == head + ValuesSql(values)
    {
      assert values[i..][1..] == values[i + 1..];
      var quoted := SQLQuote(values[i]);
      ghost var more := MoreValues(values[i + 1..]);
      if i > 0 {
        Assoc(buf, ",", quoted + more);
        buf := buf + ",";
      }
      Assoc(buf, quoted, more);
      buf := buf + quoted;
    }
    assert buf + "" == buf;
  }

  /** The loop of DeleteDML, which stops at a key column that the table does not have. */
  method WritePairs(head: string, fields: seq<string>, key: seq<string>, values: seq<Value>)
    returns (buf: Option<string>)
    requires |key| == |values|
    ensures buf.Some? <==> forall i :: 0 <= i < |key| ==> key[i] in fields
    ensures buf.Some? ==> buf.value == head + PairsSql(key, values)
  {
    hide PairSql, PairsSql, MorePairs;
    var text := head;
    for i := 0 to |key|
      invariant forall j :: 0 <= j < i ==> key[j] in fields
      invariant text + (if i == 0 then PairsSql(key, values) else MorePairs(key[i..], values[i..])) ==
                head + PairsSql(key, values)
    {
      PairsFrom(key, values, i);
      if key[i] !in fields {
        return None;
      }
      var pair := PairSql(key[i], values[i]);
      ghost var more := MorePairs(key[i + 1..], values[i + 1..]);
      if i > 0 {
        Assoc(text, " AND ", pair + more);
        text := text + " AND ";
      }
      Assoc(text, pair, more);
      text := text + pair;
    }
    PairsFrom(key, values, |key|);
    assert text + "" == text;
    return Some(text);
  }

  lemma PairsFrom(fields: seq<string>, values: seq<Value>, i: nat)
    requires i <= |fields| == |values|
    ensures MorePairs(fields[i..], values[i..]) ==
            if i == |fields| then ""
            else " AND " + (PairSql(fields[i], values[i]) + MorePairs(fields[i + 1..], values[i + 1..]))
    ensures PairsSql(fields, values) ==
            if fields == [] then "" else PairSql(fields[0], values[0]) + MorePairs(fields[1..], values[1..])
  {
    hide PairSql;
    if i < |fields| {
      assert fields[i..][1..] == fields[i + 1..] && values[i..][1..] == values[i + 1..];
    }
  }

  method UpsertDML(t: MetaTable, values: seq<Value>) returns (r: Result<string, SqlGenError>)
    ensures r == if |values| != |t.fields| then Err(WrongValueCount)
                 else Ok(Text(Row(Upsert(LDBTableName(t.family, t.table), t.fields, values))))
  {
    if |values| != |t.fields| {
      return Err(WrongValueCount);
    }
    var head := UpsertHead(LDBTableName(t.family, t.table), t.fields);
    var buf := WriteValues(head, values);
    Assoc(head, ValuesSql(values), ")");
    return Ok(buf + ")");
  }

  method DeleteDML(t: MetaTable, values: seq<Value>) returns (r: Result<string, SqlGenError>)
    ensures r == if |values| != |t.key| then Err(WrongValueCount)
                 else if exists i :: 0 <= i < |t.key| && t.key[i] !in t.fields then Err(UnknownField)
                 else Ok(Text(Row(Delete(LDBTableName(t.family, t.table), t.key, values))))
  {
    if |values| != |t.key| {
      return Err(WrongValueCount);
    }
    var buf := WritePairs(DeleteHead(LDBTableName(t.family, t.table)), t.fields, t.key, values);
    return if buf.None? then Err(UnknownField) else Ok(buf.value);
  }

  lemma Assoc(a: string, b: string, c: string)
    ensures (a + b) + c == a + (b + c)
  {
  }

  lemma Strip(p: string, s: string)
    ensures (p + s)[..|p|] == p && (p + s)[|p|..] == s
  {
  }

  // ---------- reading ----------

  predicate HasPrefix(s: string, p: string) {
    |p| <= |s| && s[..|p|] == p
  }

  predicate IsDigit(c: char) {
    '0' <= c <= '9'
  }

  /** Reads decimal digits on top of those read before. */
  function ReadDigits(s: string, read: nat): (r: (nat, string))
    ensures |r.1| <= |s|
    ensures s != "" && IsDigit(s[0]) ==> |r.1| < |s|
  {
    if s == "" || !IsDigit(s[0]) then (read, s) else ReadDigits(s[1..], 10 * read + (s[0] - '0') as int)
  }

  /** The rest of a character literal after its opening quote; a doubled quote stands for one. */
  function ReadChars(s: string): (r: Option<(string, string)>)
    ensures r.Some? ==> |r.value.1| < |s|
  {
    if s == "" then None
    else if s[0] != '\'' then
      match ReadChars(s[1..])
      case None => None
      case Some((chars, rest)) => Some(([s[0]] + chars, rest))
    else if |s| > 1 && s[1] == '\'' then
      match ReadChars(s[2..])
      case None => None
      case Some((chars, rest)) => Some((['\''] + chars, rest))
    else Some(("", s[1..]))
  }

  function HexValue(c: char): Option<int> {
    if '0' <= c <= '9' then Some((c - '0') as int)
    else if 'a' <= c <= 'f' then Some((c - 'a') as int + 10)
    else if 'A' <= c <= 'F' then Some((c - 'A') as int + 10)
    else None
  }

  function ReadHex(s: string): (r: Option<(seq<byte>, string)>)
    ensures r.Some? ==> |r.value.1| < |s|
  {
    if s == "" then None
    else if s[0] == '\'' then Some(([], s[1..]))
    else if |s| < 2 || HexValue(s[0]).None? || HexValue(s[1]).None? then None
    else
      match ReadHex(s[2..])
      case None => None
      case Some((bytes, rest)) => Some(([16 * HexValue(s[0]).value + HexValue(s[1]).value] + bytes, rest))
  }

  function ReadKeyword(s: string, word: string, v: Value): (r: Option<(Value, string)>)
    requires word != ""
    ensures r.Some? ==> |r.value.1| < |s|
  {
    if HasPrefix(s, word) then Some((v, s[|word|..])) else None
  }

  function ReadLiteral(s: string): (r: Option<(Value, string)>)
    ensures r.Some? ==> |r.value.1| < |s|
  {
    if s == "" then None
    else if s[0] == 'N' then ReadKeyword(s, "NULL", Null)
    else if s[0] == 't' then ReadKeyword(s, "true", Bool(true))
    else if s[0] == 'f' then ReadKeyword(s, "false", Bool(false))
    else if s[0] == '\'' then
      match ReadChars(s[1..])
      case None => None
      case Some((chars, rest)) => Some((Str(chars), rest))
    else if s[0] == 'x' && |s| > 1 && s[1] == '\'' then
      match ReadHex(s[2..])
      case None => None
      case Some((bytes, rest)) => Some((Blob(bytes), rest))
    else if IsDigit(s[0]) then
      var (n, rest) := ReadDigits(s, 0);
      Some((Int(n), rest))
    else if s[0] == '-' && |s| > 1 && IsDigit(s[1]) then
      var (n, rest) := ReadDigits(s[1..], 0);
      Some((Int(0 - n), rest))
    else None
  }

  /** Literals separated by commas, up to a closing parenthesis. */
  function ReadMoreLiterals(s: string): Option<(seq<Value>, string)>
    decreases |s|
  {
    if s == "" then None
    else if s[0] == ')' then Some(([], s[1..]))
    else if s[0] != ',' then None
    else
      match ReadLiteral(s[1..])
      case None => None
      case Some((v, rest)) =>
        match ReadMoreLiterals(rest)
        case None => None
        case Some((vs, end)) => Some(([v] + vs, end))
  }

  function ReadLiterals(s: string): Option<(seq<Value>, string)> {
    if s != "" && s[0] == ')' then Some(([], s[1..])) else ReadMoreLiterals("," + s)
  }

  /** The text up to a character, and what follows that character. */
  function ReadUntil(s: string, c: char): (r: Option<(string, string)>)
    ensures r.Some? ==> |r.value.1| < |s|
  {
    if s == "" then None
    else if s[0] == c then Some(("", s[1..]))
    else
      match ReadUntil(s[1..], c)
      case None => None
      case Some((word, rest)) => Some(([s[0]] + word, rest))
  }

  function ReadName(s: string): (r: Option<(string, string)>)
    ensures r.Some? ==> |r.value.1| < |s|
  {
    if s == "" || s[0] != '"' then None else ReadUntil(s[1..], '"')
  }

  function ReadMoreNames(s: string): Option<(seq<string>, string)>
    decreases |s|
  {
    if s == "" then None
    else if s[0] == ')' then Some(([], s[1..]))
    else if s[0] != ',' then None
    else
      match ReadName(s[1..])
      case None => None
      case Some((n, rest)) =>
        match ReadMoreNames(rest)
        case None => None
        case Some((ns, end)) => Some(([n] + ns, end))
  }

  function ReadNames(s: string): Option<(seq<string>, string)> {
    if s != "" && s[0] == ')' then Some(([], s[1..])) else ReadMoreNames("," + s)
  }

  /** "name" = literal. */
  function ReadPair(s: string): (r: Option<((string, Value), string)>)
    ensures r.Some? ==> |r.value.1| < |s|
  {
    match ReadName(s)
    case None => None
    case Some((n, rest)) =>
      if !HasPrefix(rest, " = ") then None
      else
        match ReadLiteral(rest[3..])
        case None => None
        case Some((v, end)) => Some(((n, v), end))
  }

  /** Pairs, each after " AND ", up to the end of the text. */
  function ReadMorePairs(s: string): Option<(seq<string>, seq<Value>)>
    decreases |s|
  {
    if s == "" then Some(([], []))
    else if !HasPrefix(s, " AND ") then None
    else
      match ReadPair(s[5..])
      case None => None
      case Some(((n, v), rest)) =>
        match ReadMorePairs(rest)
        case None => None
        case Some((ns, vs)) => Some(([n] + ns, [v] + vs))
  }

  function ReadPairs(s: string): Option<(seq<string>, seq<Value>)> {
    if s == "" then Some(([], [])) else ReadMorePairs(" AND " + s)
  }

  function ReadUpsert(s: string): Option<Dml> {
    match ReadUntil(s, ' ')
    case None => None
    case Some((table, r1)) =>
      if !HasPrefix(r1, "(") then None
      else
        match ReadNames(r1[1..])
        case None => None
        case Some((names, r2)) =>
          if !HasPrefix(r2, " VALUES(") then None
          else
            match ReadLiterals(r2[8..])
            case None => None
            case Some((values, end)) => if end == "" then Some(Upsert(table, names, values)) else None
  }

  function ReadDelete(s: string): Option<Dml> {
    match ReadUntil(s, ' ')
    case None => None
    case Some((table, r1)) =>
      if !HasPrefix(r1, "WHERE ") then None
      else
        match ReadPairs(r1[6..])
        case None => None
        case Some((names, values)) => Some(Delete(table, names, values))
  }

  /** Reads a ledger statement back from its text. */
  function ReadStatement(s: string): Option<Statement> {
    if s == "" then None
    else if s[0] == '-' then
      if s == DML_TX_BEGIN_KEY then Some(TxBegin) else if s == DML_TX_END_KEY then Some(TxEnd) else None
    else if s[0] == 'R' then
      match (if HasPrefix(s, "REPLACE INTO ") then ReadUpsert(s[|"REPLACE INTO "|..]) else None)
      case None => None
      case Some(d) => Some(Row(d))
    else if s[0] == 'D' then
      match (if HasPrefix(s, "DELETE FROM ") then ReadDelete(s[|"DELETE FROM "|..]) else None)
      case None => None
      case Some(d) => Some(Row(d))
    else None
  }

  // ---------- the round trip ----------

  /** What follows a literal in a statement. */
  predicate EndsLiteral(r: string) {
    r == "" || r[0] == ',' || r[0] == ')' || r[0] == ' '
  }

  lemma {:induction false} DecimalStartsWithDigit(n: nat)
    ensures Decimal(n) != "" && IsDigit(Decimal(n)[0])
  {
    if n >= 10 {
      DecimalStartsWithDigit(n / 10);
    }
  }

  lemma {:induction false} ReadDecimal(n: nat, r: string)
    ensures ReadDigits(Decimal(n) + r, 0) == ReadDigits(r, n)
  {
    if n < 10 {
      assert (Decimal(n) + r)[1..] == r;
    } else {
      var d := [DigitChar(n % 10)];
      assert Decimal(n) + r == Decimal(n / 10) + (d + r);
      ReadDecimal(n / 10, d + r);
      assert (d + r)[1..] == r;
    }
  }

  lemma {:induction false} ReadQuoted(s: string, r: string)
    requires r == "" || r[0] != '\''
    ensures ReadChars(DoubleQuotes(s) + ("'" + r)) == Some((s, r))
  {
    var text := DoubleQuotes(s) + ("'" + r);
    if s == "" {
      assert text == "'" + r && text[1..] == r;
    } else {
      var tail := DoubleQuotes(s[1..]) + ("'" + r);
      ReadQuoted(s[1..], r);
      assert s == [s[0]] + s[1..];
      if s[0] == '\'' {
        assert text == "''" + tail && text[2..] == tail;
      } else {
        assert text == [s[0]] + tail && text[1..] == tail;
      }
    }
  }

  lemma HexPair(b: byte)
    ensures HexValue(HexChar(b / 16)) == Some(b / 16)
    ensures HexValue(HexChar(b % 16)) == Some(b % 16)
    ensures HexChar(b / 16) != '\''
  {
  }

  lemma {:induction false} ReadHexed(bytes: seq<byte>, r: string)
    ensures ReadHex(Hex(bytes) + ("'" + r)) == Some((bytes, r))
  {
    if bytes == [] {
      Strip("'", r);
      assert Hex(bytes) + ("'" + r) == "'" + r;
    } else {
      var pair := [HexChar(bytes[0] / 16), HexChar(bytes[0] % 16)];
      var tail := Hex(bytes[1..]) + ("'" + r);
      ReadHexed(bytes[1..], r);
      HexPair(bytes[0]);
      Assoc(pair, Hex(bytes[1..]), "'" + r);
      Strip(pair, tail);
      assert bytes == [bytes[0]] + bytes[1..];
    }
  }

  lemma ReadInt(n: int, r: string)
    requires EndsLiteral(r)
    ensures ReadLiteral(SQLQuote(Int(n)) + r) == Some((Int(n), r))
  {
    var m := if n < 0 then -n else n;
    var digits := Decimal(m) + r;
    DecimalStartsWithDigit(m);
    assert digits[0] == Decimal(m)[0];
    ReadDecimal(m, r);
    if n < 0 {
      Assoc("-", Decimal(m), r);
      Strip("-", digits);
    }
  }

  lemma ReadWordLiteral(word: string, v: Value, r: string)
    requires word != ""
    ensures ReadKeyword(word + r, word, v) == Some((v, r))
  {
    Strip(word, r);
  }

  lemma ReadStr(s: string, r: string)
    requires EndsLiteral(r)
    ensures ReadLiteral(SQLQuote(Str(s)) + r) == Some((Str(s), r))
  {
    hide DoubleQuotes, ReadChars;
    ReadQuoted(s, r);
    Assoc("'", DoubleQuotes(s) + "'", r);
    Assoc(DoubleQuotes(s), "'", r);
    Strip("'", DoubleQuotes(s) + ("'" + r));
  }

  lemma ReadBlob(bytes: seq<byte>, r: string)
    ensures ReadLiteral(SQLQuote(Blob(bytes)) + r) == Some((Blob(bytes), r))
  {
    hide Hex, ReadHex;
    ReadHexed(bytes, r);
    Assoc("x'", Hex(bytes) + "'", r);
    Assoc(Hex(bytes), "'", r);
    Strip("x'", Hex(bytes) + ("'" + r));
  }

  /** A printed value is read back, whatever follows it in the statement. */
  lemma ReadQuote(v: Value, r: string)
    requires EndsLiteral(r)
    ensures ReadLiteral(SQLQuote(v) + r) == Some((v, r))
  {
    match v
    case Null => ReadWordLiteral("NULL", v, r);
    case Bool(b) => ReadWordLiteral(if b then "true" else "false", v, r);
    case Int(n) => ReadInt(n, r);
    case Str(s) => ReadStr(s, r);
    case Blob(bytes) => ReadBlob(bytes, r);
  }

  lemma {:induction false} ReadValueTail(values: seq<Value>, r: string)
    ensures ReadMoreLiterals(MoreValues(values) + (")" + r)) == Some((values, r))
  {
    hide SQLQuote, ReadLiteral;
    var end := ")" + r;
    if values == [] {
      Strip(")", r);
      assert MoreValues(values) + end == end;
    } else {
      var quoted, more := SQLQuote(values[0]), MoreValues(values[1..]);
      ReadValueTail(values[1..], r);
      assert EndsLiteral(more + end);
      ReadQuote(values[0], more + end);
      Assoc(",", quoted + more, end);
      Assoc(quoted, more, end);
      Strip(",", quoted + (more + end));
      assert values == [values[0]] + values[1..];
    }
  }

  lemma QuoteNeverCloses(v: Value)
    ensures SQLQuote(v) != "" && SQLQuote(v)[0] != ')'
  {
    if v.Int? { DecimalStartsWithDigit(if v.n < 0 then -v.n else v.n); }
  }

  lemma ReadValues(values: seq<Value>, r: string)
    ensures ReadLiterals(ValuesSql(values) + (")" + r)) == Some((values, r))
  {
    var end := ")" + r;
    if values == [] {
      Strip(")", r);
      assert ValuesSql(values) + end == end;
    } else {
      ReadValueTail(values, r);
      QuoteNeverCloses(values[0]);
      assert (ValuesSql(values) + end)[0] == SQLQuote(values[0])[0];
      Assoc(",", ValuesSql(values), end);
    }
  }

  lemma {:induction false} ReadWord(word: string, c: char, r: string)
    requires c !in word
    ensures ReadUntil(word + ([c] + r), c) == Some((word, r))
  {
    if word == "" {
      Strip([c], r);
      assert word + ([c] + r) == [c] + r;
    } else {
      ReadWord(word[1..], c, r);
      assert word == [word[0]] + word[1..];
      Assoc([word[0]], word[1..], [c] + r);
      Strip([word[0]], word[1..] + ([c] + r));
    }
  }

  lemma ReadDblquoted(name: string, r: string)
    requires '"' !in name
    ensures ReadName(Dblquote(name) + r) == Some((name, r))
  {
    ReadWord(name, '"', r);
    Assoc("\"", name + "\"", r);
    Assoc(name, "\"", r);
    Strip("\"", name + ("\"" + r));
  }

  lemma {:induction false} ReadNameTail(names: seq<string>, r: string)
    requires forall i :: 0 <= i < |names| ==> '"' !in names[i]
    ensures ReadMoreNames(MoreNames(names) + (")" + r)) == Some((names, r))
  {
    var end := ")" + r;
    if names == [] {
      Strip(")", r);
      assert MoreNames(names) + end == end;
    } else {
      var quoted, more := Dblquote(names[0]), MoreNames(names[1..]);
      ReadNameTail(names[1..], r);
      ReadDblquoted(names[0], more + end);
      Assoc(",", quoted + more, end);
      Assoc(quoted, more, end);
      Strip(",", quoted + (more + end));
      assert names == [names[0]] + names[1..];
    }
  }

  lemma ReadNameList(names: seq<string>, r: string)
    requires forall i :: 0 <= i < |names| ==> '"' !in names[i]
    ensures ReadNames(NamesSql(names) + (")" + r)) == Some((names, r))
  {
    var end := ")" + r;
    if names == [] {
      Strip(")", r);
      assert NamesSql(names) + end == end;
    } else {
      ReadNameTail(names, r);
      assert (NamesSql(names) + end)[0] == '"';
      Assoc(",", NamesSql(names), end);
    }
  }

  lemma ReadOnePair(field: string, value: Value, r: string)
    requires '"' !in field && EndsLiteral(r)
    ensures ReadPair(PairSql(field, value) + r) == Some(((field, value), r))
  {
    var quoted := SQLQuote(value);
    Assoc(Dblquote(field), " = " + quoted, r);
    Assoc(" = ", quoted, r);
    ReadDblquoted(field, " = " + (quoted + r));
    Strip(" = ", quoted + r);
    ReadQuote(value, r);
  }

  lemma {:induction false} ReadPairTail(fields: seq<string>, values: seq<Value>)
    requires |fields| == |values| && forall i :: 0 <= i < |fields| ==> '"' !in fields[i]
    ensures ReadMorePairs(MorePairs(fields, values)) == Some((fields, values))
  {
    hide PairSql, ReadPair;
    if fields != [] {
      var pair, more := PairSql(fields[0], values[0]), MorePairs(fields[1..], values[1..]);
      ReadPairTail(fields[1..], values[1..]);
      assert EndsLiteral(more);
      ReadOnePair(fields[0], values[0], more);
      Strip(" AND ", pair + more);
      assert fields == [fields[0]] + fields[1..] && values == [values[0]] + values[1..];
    }
  }

  lemma ReadPairList(fields: seq<string>, values: seq<Value>)
    requires |fields| == |values| && forall i :: 0 <= i < |fields| ==> '"' !in fields[i]
    ensures ReadPairs(PairsSql(fields, values)) == Some((fields, values))
  {
    if fields != [] {
      ReadPairTail(fields, values);
      assert PairsSql(fields, values)[0] == '"';
    }
  }

  /** A column name that NewFieldName accepts and leaves alone. */
  predicate IsField(f: string) {
    1 <= |f| <= 64 && Matches(f)
  }

  /** A statement on a table and columns with valid names. */
  ghost predicate ValidNames(st: Statement) {
    st.Row? ==>
      && (exists f, t :: IsFamily(f) && IsTable(t) && st.dml.table == LDBTableName(f, t))
      && (forall i :: 0 <= i < |st.dml.fields| ==> IsField(st.dml.fields[i]))
  }

  lemma TableHasNoSpace(st: Statement)
    requires ValidNames(st) && st.Row?
    ensures ' ' !in st.dml.table
  {
    var f, t :| IsFamily(f) && IsTable(t) && st.dml.table == LDBTableName(f, t);
    ValidName(f, MAX_FAMILY_NAME_LENGTH);
    ValidName(t, MAX_TABLE_NAME_LENGTH);
  }

  /** What follows the table name in an upsert, piece by piece as it is read. */
  function UpsertRest(fields: seq<string>, values: seq<Value>): string {
    " " + ("(" + (NamesSql(fields) + (")" + (" VALUES(" + (ValuesSql(values) + (")" + ""))))))
  }

  lemma ReadUpsertText(table: string, fields: seq<string>, values: seq<Value>)
    requires ' ' !in table && forall i :: 0 <= i < |fields| ==> '"' !in fields[i]
    ensures ReadUpsert(table + UpsertRest(fields, values)) == Some(Upsert(table, fields, values))
  {
    var r3 := ValuesSql(values) + (")" + "");
    var r2 := " VALUES(" + r3;
    var r1 := NamesSql(fields) + (")" + r2);
    ReadWord(table, ' ', "(" + r1);
    Strip("(", r1);
    ReadNameList(fields, r2);
    Strip(" VALUES(", r3);
    ReadValues(values, "");
  }

  lemma ReadDeleteText(table: string, fields: seq<string>, values: seq<Value>)
    requires |fields| == |values|
    requires ' ' !in table && forall i :: 0 <= i < |fields| ==> '"' !in fields[i]
    ensures ReadDelete(table + (" " + ("WHERE " + PairsSql(fields, values)))) == Some(Delete(table, fields, values))
  {
    var pairs := PairsSql(fields, values);
    ReadWord(table, ' ', "WHERE " + pairs);
    Strip("WHERE ", pairs);
    ReadPairList(fields, values);
  }

  lemma UpsertTextParts(table: string, fields: seq<string>, values: seq<Value>)
    requires |fields| == |values|
    ensures Text(Row(Upsert(table, fields, values))) == "REPLACE INTO " + (table + UpsertRest(fields, values))
  {
    var names, vals := NamesSql(fields), ValuesSql(values) + ")";
    assert ")" + "" == ")";
    Assoc("REPLACE INTO ", table + (" (" + (names + ") VALUES(")), vals);
    Assoc(table, " (" + (names + ") VALUES("), vals);
    Assoc(" (", names + ") VALUES(", vals);
    Assoc(names, ") VALUES(", vals);
    assert ") VALUES(" == ")" + " VALUES(";
    Assoc(")", " VALUES(", vals);
    assert " (" == " " + "(";
    Assoc(" ", "(", names + (")" + (" VALUES(" + vals)));
  }

  lemma DeleteTextParts(table: string, fields: seq<string>, values: seq<Value>)
    requires |fields| == |values|
    ensures Text(Row(Delete(table, fields, values))) ==
            "DELETE FROM " + (table + (" " + ("WHERE " + PairsSql(fields, values))))
  {
    var pairs := PairsSql(fields, values);
    Assoc("DELETE FROM ", table + " WHERE ", pairs);
    Assoc(table, " WHERE ", pairs);
    assert " WHERE " == " " + "WHERE ";
    Assoc(" ", "WHERE ", pairs);
  }

  lemma ReadAnUpsert(rest: string, d: Dml)
    requires ReadUpsert(rest) == Some(d)
    ensures ReadStatement("REPLACE INTO " + rest) == Some(Row(d))
  {
    Strip("REPLACE INTO ", rest);
  }

  lemma ReadADelete(rest: string, d: Dml)
    requires ReadDelete(rest) == Some(d)
    ensures ReadStatement("DELETE FROM " + rest) == Some(Row(d))
  {
    Strip("DELETE FROM ", rest);
  }

  lemma PlainFields(st: Statement)
    requires ValidNames(st) && st.Row?
    ensures forall i :: 0 <= i < |st.dml.fields| ==> '"' !in st.dml.fields[i]
  {
    forall i | 0 <= i < |st.dml.fields| ensures '"' !in st.dml.fields[i] {
      assert IsField(st.dml.fields[i]);
    }
  }

  /** Every statement is read back from its text exactly, however many quotes, commas or parentheses its
      strings hold; in particular no row statement prints as a marker. */
  lemma TextRoundTrip(st: Statement)
    requires Paired(st) && ValidNames(st)
    ensures ReadStatement(Text(st)) == Some(st)
  {
    if st.Row? {
      var table, fields, values := st.dml.table, st.dml.fields, st.dml.values;
      TableHasNoSpace(st);
      PlainFields(st);
      if st.dml.Upsert? {
        UpsertTextParts(table, fields, values);
        ReadUpsertText(table, fields, values);
        ReadAnUpsert(table + UpsertRest(fields, values), st.dml);
      } else {
        DeleteTextParts(table, fields, values);
        ReadDeleteText(table, fields, values);
        ReadADelete(table + (" " + ("WHERE " + PairsSql(fields, values))), st.dml);
      }
    }
  }

  /** Hence the ledger's text column loses nothing: equal texts are equal statements. */
  lemma TextIsInjective(a: Statement, b: Statement)
    requires Paired(a) && ValidNames(a) && Paired(b) && ValidNames(b)
    requires Text(a) == Text(b)
    ensures a == b
  {
    TextRoundTrip(a);
    TextRoundTrip(b);
  }
}
