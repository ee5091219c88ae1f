/** Family and table names, and the encoding family___table that stands for SQL schemas in the LDB. */
module Names {
  import opened Wrappers

  const MIN_NAME_LENGTH := 3
  const MAX_FAMILY_NAME_LENGTH := 30
  const MAX_TABLE_NAME_LENGTH := 50

  datatype NameError = NameInvalid | NameTooLong | NameTooShort

  function ToLower(s: string): (r: string)
    ensures |r| == |s|
  {
    seq(|s|, i requires 0 <= i < |s| => if 'A' <= s[i] <= 'Z' then s[i] - 'A' + 'a' else s[i])
  }

  predicate DoubleAt(s: string, i: int) {
    0 <= i < |s| - 1 && s[i] == '_' && s[i + 1] == '_'
  }

  predicate HasDouble(s: string) {
    exists i :: 0 <= i < |s| - 1 && DoubleAt(s, i)
  }

  predicate NameChar(c: char) {
    'a' <= c <= 'z' || '0' <= c <= '9' || c == '_'
  }

  /** The pattern ^$|^[a-z][a-z0-9_]*$. */
  predicate Matches(s: string) {
    s == "" || ('a' <= s[0] <= 'z' && forall i :: 0 <= i < |s| ==> NameChar(s[i]))
  }

  function Normalize(name: string, max: nat): Result<string, NameError> {
    var lowered := ToLower(name);
    if HasDouble(lowered) then Err(NameInvalid)
    else if !Matches(lowered) then Err(NameInvalid)
    else if |lowered| > max then Err(NameTooLong)
    else if |lowered| < MIN_NAME_LENGTH then Err(NameTooShort)
    else Ok(lowered)
  }

  function NewFamilyName(name: string): Result<string, NameError> {
    Normalize(name, MAX_FAMILY_NAME_LENGTH)
  }

  function NewTableName(name: string): Result<string, NameError> {
    Normalize(name, MAX_TABLE_NAME_LENGTH)
  }

  /** A family name as the system holds it: normalisation leaves it alone. */
  predicate IsFamily(f: string) {
    NewFamilyName(f) == Ok(f)
  }

  predicate IsTable(t: string) {
    NewTableName(t) == Ok(t)
  }

  function LDBTableName(family: string, table: string): string {
    family + "___" + table
  }

  predicate DelimiterAt(s: string, i: int) {
    0 <= i <= |s| - 3 && s[i] == '_' && s[i + 1] == '_' && s[i + 2] == '_'
  }

  /** The first delimiter at or after i, or |s|. */
  function FindDelimiter(s: string, i: nat): (r: nat)
    requires i <= |s|
    ensures i <= r <= |s|
    ensures r < |s| ==> DelimiterAt(s, r)
    ensures forall k :: i <= k < r ==> !DelimiterAt(s, k)
    decreases |s| - i
  {
    if i == |s| || DelimiterAt(s, i) then i else FindDelimiter(s, i + 1)
  }

  /** strings.Split(s, "___"). */
  function Split(s: string): (parts: seq<string>)
    ensures |parts| >= 1
    decreases |s|
  {
    var i := FindDelimiter(s, 0);
    if i == |s| then [s] else [s[..i]] + Split(s[i + 3..])
  }

  datatype DecodeError = NotTwoParts | BadName(error: NameError)

  function DecodeLDBTableName(name: string): Result<(string, string), DecodeError> {
    var parts := Split(name);
    if |parts| != 2 then Err(NotTwoParts)
    else
      match NewFamilyName(parts[0])
      case Err(e) => Err(BadName(e))
      case Ok(f) =>
        match NewTableName(parts[1])
        case Err(e) => Err(BadName(e))
        case Ok(t) => Ok((f, t))
  }

  // ---------- the encoding ----------

  lemma ValidName(s: string, max: nat)
    requires Normalize(s, max) == Ok(s)
    ensures ToLower(s) == s && |s| >= 3 && 'a' <= s[0] <= 'z'
    ensures forall i :: 0 <= i < |s| ==> NameChar(s[i])
    ensures forall i :: !DoubleAt(s, i)
  {
  }

  /** The same text with every capital letter turned into its small one. */
  predicate IsLowerOf(s: string, l: string) {
    && |l| == |s|
    && forall i :: 0 <= i < |s| ==>
         if 'A' <= s[i] <= 'Z' then l[i] as int == s[i] as int + 32 else l[i] == s[i]
  }

  lemma LowerExactly(s: string, l: string)
    ensures ToLower(s) == l <==> IsLowerOf(s, l)
  {
    assert IsLowerOf(s, ToLower(s));
    if IsLowerOf(s, l) {
      assert forall i :: 0 <= i < |s| ==> l[i] == ToLower(s)[i];
    }
  }

  /** Which names are valid, and what they become: their lower-case form, if that has three to max letters, digits and
      single underscores and starts with a letter. */
  lemma NormalizesExactlyWhen(name: string, max: nat, l: string)
    ensures Normalize(name, max) == Ok(l) <==>
            && IsLowerOf(name, l) && 3 <= |l| <= max
            && 'a' <= l[0] <= 'z' && (forall i :: 0 <= i < |l| ==> NameChar(l[i]))
            && forall i :: 0 < i < |l| ==> l[i - 1] != '_' || l[i] != '_'
  {
    hide ToLower, IsLowerOf, NameChar;
    LowerExactly(name, l);
    if ToLower(name) == l && |l| >= 3 {
      NoDoubleExactlyWhen(l);
    }
  }

  lemma NoDoubleExactlyWhen(s: string)
    ensures HasDouble(s) <==> exists i :: 0 < i < |s| && s[i - 1] == '_' && s[i] == '_'
  {
    if HasDouble(s) {
      var i :| 0 <= i < |s| - 1 && DoubleAt(s, i);
      assert s[i + 1 - 1] == '_' && s[i + 1] == '_';
    }
    if i :| 0 < i < |s| && s[i - 1] == '_' && s[i] == '_' {
      assert DoubleAt(s, i - 1);
    }
  }

  lemma LongerFamilyClashes(f: string, t: string, f': string, t': string)
    requires IsFamily(f) && IsTable(t) && IsFamily(f') && IsTable(t')
    requires LDBTableName(f, t) == LDBTableName(f', t')
    ensures |f| >= |f'|
  {
    ValidName(f', MAX_FAMILY_NAME_LENGTH);
    ValidName(t, MAX_TABLE_NAME_LENGTH);
    var s, s' := LDBTableName(f, t), LDBTableName(f', t');
    assert forall i :: 0 <= i < |f'| ==> s'[i] == f'[i];
    assert s[|f|] == s[|f| + 1] == s[|f| + 2] == '_' && s[|f| + 3] == t[0];
    assert s'[|f'|] == s'[|f'| + 1] == s'[|f'| + 2] == '_';
    assert !DoubleAt(f', |f|);
  }

  /** The encoding never confuses two pairs of valid names, not even when a family name ends
      in an underscore. */
  lemma EncodingIsInjective(f: string, t: string, f': string, t': string)
    requires IsFamily(f) && IsTable(t) && IsFamily(f') && IsTable(t')
    requires LDBTableName(f, t) == LDBTableName(f', t')
    ensures f == f' && t == t'
  {
    LongerFamilyClashes(f, t, f', t');
    LongerFamilyClashes(f', t', f, t);
    var s := LDBTableName(f, t);
    assert s[..|f|] == f && LDBTableName(f', t')[..|f'|] == f';
    assert s[|f| + 3..] == t && LDBTableName(f', t')[|f'| + 3..] == t';
  }

  lemma SplitWithoutDelimiter(s: string)
    requires forall i :: !DoubleAt(s, i)
    ensures Split(s) == [s]
  {
    var i := FindDelimiter(s, 0);
    assert DelimiterAt(s, i) ==> DoubleAt(s, i);
  }

  lemma SplitAtFirst(s: string, i: nat)
    requires DelimiterAt(s, i) && forall k :: 0 <= k < i ==> !DelimiterAt(s, k)
    ensures Split(s) == [s[..i]] + Split(s[i + 3..])
  {
    var r := FindDelimiter(s, 0);
    assert r == i;
  }

  lemma SplitPlain(f: string, t: string)
    requires forall i :: !DoubleAt(f, i)
    requires forall i :: !DoubleAt(t, i)
    requires f != "" && f[|f| - 1] != '_'
    ensures Split(LDBTableName(f, t)) == [f, t]
  {
    var s := LDBTableName(f, t);
    forall k | 0 <= k < |f| ensures !DelimiterAt(s, k) {
      assert s[k] == f[k] && !DoubleAt(f, k);
    }
    SplitAtFirst(s, |f|);
    assert s[|f| + 3..] == t && s[..|f|] == f;
    SplitWithoutDelimiter(t);
  }

  lemma DecodePlain(f: string, t: string)
    requires IsFamily(f) && IsTable(t) && f[|f| - 1] != '_'
    ensures DecodeLDBTableName(LDBTableName(f, t)) == Ok((f, t))
  {
    ValidName(f, MAX_FAMILY_NAME_LENGTH);
    ValidName(t, MAX_TABLE_NAME_LENGTH);
    SplitPlain(f, t);
  }

  lemma DecodeTrailing(f: string, t: string)
    requires IsFamily(f) && IsTable(t) && f[|f| - 1] == '_'
    ensures DecodeLDBTableName(LDBTableName(f, t)).Err?
  {
    hide Normalize, Split, FindDelimiter;
    ValidName(f, MAX_FAMILY_NAME_LENGTH);
    ValidName(t, MAX_TABLE_NAME_LENGTH);
    var s := LDBTableName(f, t);
    var i := |f| - 1;
    forall k | 0 <= k < i ensures !DelimiterAt(s, k) {
      assert s[k] == f[k] && s[k + 1] == f[k + 1] && !DoubleAt(f, k);
    }
    SplitAtFirst(s, i);
    var rest := s[i + 3..];
    assert rest == "_" + t;
    forall k ensures !DoubleAt(rest, k) {
      assert !DoubleAt(t, k - 1);
    }
    SplitWithoutDelimiter(rest);
    UnderscoreStart(rest);
  }

  /** Decoding inverts encoding exactly when the family name does not end in an underscore;
      otherwise it is an error. */
  lemma DecodeInvertsEncode(f: string, t: string)
    requires IsFamily(f) && IsTable(t)
    ensures f[|f| - 1] != '_' <==> DecodeLDBTableName(LDBTableName(f, t)) == Ok((f, t))
    ensures f[|f| - 1] == '_' <==> DecodeLDBTableName(LDBTableName(f, t)).Err?
  {
    if f[|f| - 1] == '_' {
      DecodeTrailing(f, t);
    } else {
      DecodePlain(f, t);
    }
  }

  /** A family name may end in an underscore. */
  lemma UnderscoreNames()
    ensures IsFamily("fam_") && IsTable("tab")
  {
    var f, t := "fam_", "tab";
    assert ToLower(f) == f && ToLower(t) == t;
    assert forall i :: !DoubleAt(f, i) && !DoubleAt(t, i);
    assert Matches(f) && Matches(t);
  }

  lemma UnderscoreStart(s: string)
    requires s != "" && s[0] == '_'
    ensures NewTableName(s).Err?
  {
    assert ToLower(s)[0] == '_';
  }

  lemma SplitOfTwo(s: string)
    requires |Split(s)| == 2
    ensures s == LDBTableName(Split(s)[0], Split(s)[1])
  {
    var i := FindDelimiter(s, 0);
    assert i < |s|;
    var rest := s[i + 3..];
    assert |Split(rest)| == 1;
    assert FindDelimiter(rest, 0) == |rest|;
    assert s == s[..i] + "___" + rest;
  }

  /** Any name that decodes, in whatever case, encodes back to its lower-case form. */
  lemma DecodedReencodes(s: string)
    requires DecodeLDBTableName(s).Ok?
    ensures
      var (f, t) := DecodeLDBTableName(s).value;
      IsFamily(f) && IsTable(t) && LDBTableName(f, t) == ToLower(s)
  {
    SplitOfTwo(s);
    var (f, t) := DecodeLDBTableName(s).value;
    var parts := Split(s);
    assert f == ToLower(parts[0]) && t == ToLower(parts[1]);
    LowerTwice(parts[0]);
    LowerTwice(parts[1]);
    assert ToLower(LDBTableName(parts[0], parts[1])) == LDBTableName(f, t);
  }

  lemma LowerTwice(s: string)
    ensures ToLower(ToLower(s)) == ToLower(s)
  {
  }
}
