/** mutatorStore: one row for each writer, holding the digest of its secret and its cookie, which Update
    changes by compare-and-set. */
module Mutators {
  import opened Wrappers
  import opened Tables

  const LIMIT_WRITER_COOKIE_SIZE := 1024

  type Cookie = seq<byte>

  datatype Mutator = Mutator(secret: string, cookie: Cookie, clock: nat)

  type MutatorRows = map<string, Mutator>

  datatype CookieError = CookieTooLong | WriterNotFound | CookieConflict | CookieSqlError

  datatype Credentials = Credentials(writer: string, secret: string)

  /** Get: the cookie of the row with this writer and secret. */
  function Get(rows: MutatorRows, who: Credentials): Option<Cookie> {
    if who.writer in rows && rows[who.writer].secret == who.secret then Some(rows[who.writer].cookie) else None
  }

  /** Update: UPDATE ... WHERE writer and secret match and, if ifCookie is given, the cookie does. */
  function Update(rows: MutatorRows, who: Credentials, cookie: Cookie, ifCookie: Option<Cookie>)
    : Result<MutatorRows, CookieError>
  {
    if |cookie| > LIMIT_WRITER_COOKIE_SIZE || (ifCookie.Some? && |ifCookie.value| > LIMIT_WRITER_COOKIE_SIZE)
    then Err(CookieTooLong)
    else
      match Get(rows, who)
      case None => Err(WriterNotFound)
      case Some(current) =>
        if ifCookie.Some? && ifCookie.value != current then Err(CookieConflict)
        else
          var was := rows[who.writer];
          Ok(rows[who.writer := Mutator(was.secret, cookie, was.clock + 1)])
  }

  /** Register: inserts the writer with its first token; again with the same secret it is a no-op. */
  function Register(rows: MutatorRows, who: Credentials, token: Cookie): Option<MutatorRows> {
    if who.writer !in rows then Some(rows[who.writer := Mutator(who.secret, token, 0)])
    else if rows[who.writer].secret == who.secret then Some(rows)
    else None
  }

  /** What an update that succeeds leaves: this writer's cookie is the new one and its clock has moved on; its secret
      and every other writer are as before. */
  lemma UpdateSetsOneCookie(rows: MutatorRows, who: Credentials, cookie: Cookie, ifCookie: Option<Cookie>, w: string)
    requires Update(rows, who, cookie, ifCookie).Ok?
    ensures
      var after := Update(rows, who, cookie, ifCookie).value;
      && after.Keys == rows.Keys
      && (w in rows ==>
            after[w] == if w == who.writer then Mutator(rows[w].secret, cookie, rows[w].clock + 1) else rows[w])
  {
  }

  // ---------- the cookie chain ----------

  /** One committed write of a writer's cookie: the batch it came with (empty for SetWriterCookie),
      the check it passed, and the cookie it stored. */
  datatype CookieWrite = CookieWrite(batch: seq<Dml>, check: Option<Cookie>, cookie: Cookie)

  /** The stored cookie just before write i. */
  function CookieBefore(first: Cookie, writes: seq<CookieWrite>, i: nat): Cookie
    requires i <= |writes|
  {
    if i == 0 then first else writes[i - 1].cookie
  }

  /** Every checked write names the cookie that the write before it stored. */
  ghost predicate Chained(first: Cookie, writes: seq<CookieWrite>) {
    forall i {:trigger CookieBefore(first, writes, i)} :: 0 <= i < |writes| && writes[i].check.Some? ==>
      writes[i].check.value == CookieBefore(first, writes, i)
  }

  /** A writer that checks every write, against another cookie than it stores, and stores one cookie only with
      one request: writes with equal cookies are retries. */
  ghost predicate OneRequestPerCookie(writes: seq<CookieWrite>) {
    && (forall i :: 0 <= i < |writes| ==> writes[i].check.Some? && writes[i].check.value != writes[i].cookie)
    && (forall i, j :: 0 <= i < j < |writes| && writes[i].cookie == writes[j].cookie ==> writes[i] == writes[j])
  }

  /** A writer that never reuses a cookie, not even the one it started from. */
  ghost predicate NeverReuses(first: Cookie, writes: seq<CookieWrite>) {
    OneRequestPerCookie(writes) && forall i :: 0 <= i < |writes| ==> writes[i].cookie != first
  }

  /** For such a writer no request is committed twice, even though cookies are only compared for equality:
      bringing back the cookie that a request checks would take a second commit of the request
      before it, and so on down to the first cookie, which nothing brings back. */
  lemma {:induction false} NoRequestTwice(first: Cookie, writes: seq<CookieWrite>, i: nat, j: nat)
    requires Chained(first, writes) && NeverReuses(first, writes)
    requires i < j < |writes|
    ensures writes[i] != writes[j]
    decreases j
  {
    if writes[i] == writes[j] {
      assert writes[i].check.value == CookieBefore(first, writes, i);
      assert writes[j].check.value == CookieBefore(first, writes, j) == writes[j - 1].cookie;
      if i > 0 {
        NoRequestTwice(first, writes, i - 1, j - 1);
      }
    }
  }

}
