/** The enrollment store: the tables the route handlers read and write, the
    lookups they perform on them, the uniqueness constraints the database
    enforces on insert, and the invariants the reconciliation core keeps. */
module Store {
  import opened Base
  import opened Seqs

  datatype User = User(id: string, name: string, email: string, passwordHash: string)

  /** Prices are whole units of each currency (naira, dollars). */
  datatype Bootcamp = Bootcamp(id: string, title: string, priceNGN: int, priceUSD: int, isActive: bool)

  /** Instants are milliseconds; an absent bound or cap is `None`. */
  datatype DiscountCode = DiscountCode(
    id: string, code: string, description: string, discountPercent: int, isActive: bool,
    validFrom: Option<int>, validUntil: Option<int>, maxUses: Option<int>, currentUses: int)

  /** `transactionId` is `None` for an enrollment made without a verified
      payment; `discountCodeId` names the code whose use it counted. */
  datatype Enrollment = Enrollment(
    userId: string, bootcampId: string, transactionId: Option<string>, discountCodeId: Option<string>)

  datatype WaitlistEntry = WaitlistEntry(userId: string, bootcampId: string)

  datatype ResetToken = ResetToken(email: string, token: string, expires: int)

  // ---- lookups (`findUnique` / `findFirst`) ----

  function FindUserByEmail(users: seq<User>, email: string): (r: Option<User>)
    ensures r.Some? ==> r.value in users && r.value.email == email
    ensures r.None? ==> forall u :: u in users ==> u.email != email
  {
    match FirstIndex(users, (u: User) => u.email == email)
    case None => None
    case Some(i) => Some(users[i])
  }

  function FindUserById(users: seq<User>, id: string): (r: Option<User>)
    ensures r.Some? ==> r.value in users && r.value.id == id
    ensures r.None? ==> forall u :: u in users ==> u.id != id
  {
    match FirstIndex(users, (u: User) => u.id == id)
    case None => None
    case Some(i) => Some(users[i])
  }

  function FindBootcamp(bootcamps: seq<Bootcamp>, id: string): (r: Option<Bootcamp>)
    ensures r.Some? ==> r.value in bootcamps && r.value.id == id
    ensures r.None? ==> forall b :: b in bootcamps ==> b.id != id
  {
    match FirstIndex(bootcamps, (b: Bootcamp) => b.id == id)
    case None => None
    case Some(i) => Some(bootcamps[i])
  }

  /** Lookup of a discount code by its (already normalised) code string. */
  function FindCode(codes: seq<DiscountCode>, code: string): (r: Option<DiscountCode>)
    ensures r.Some? ==> r.value in codes && r.value.code == code
    ensures r.None? ==> forall d :: d in codes ==> d.code != code
  {
    match CodeIndex(codes, code)
    case None => None
    case Some(i) => Some(codes[i])
  }

  /** The position of the first code with that string: `findUnique` on the
      unique `code` column finds that one. */
  function CodeIndex(codes: seq<DiscountCode>, code: string): (r: Option<nat>)
    ensures r.Some? ==> r.value < |codes| && codes[r.value].code == code
                        && forall j :: 0 <= j < r.value ==> codes[j].code != code
    ensures r.None? ==> forall j :: 0 <= j < |codes| ==> codes[j].code != code
  {
    FirstIndex(codes, (d: DiscountCode) => d.code == code)
  }

  /** Position of a reset token record, by its token string. */
  function FindToken(tokens: seq<ResetToken>, token: string): (r: Option<nat>)
    ensures r.Some? ==> r.value < |tokens| && tokens[r.value].token == token
    ensures r.None? ==> forall t :: t in tokens ==> t.token != token
  {
    FirstIndex(tokens, (t: ResetToken) => t.token == token)
  }

  predicate HasPair(es: seq<Enrollment>, userId: string, bootcampId: string) {
    exists e :: e in es && e.userId == userId && e.bootcampId == bootcampId
  }

  predicate HasTransaction(es: seq<Enrollment>, tx: string) {
    exists e :: e in es && e.transactionId == Some(tx)
  }

  predicate HasEntry(wl: seq<WaitlistEntry>, userId: string, bootcampId: string) {
    WaitlistEntry(userId, bootcampId) in wl
  }

  predicate HasToken(tokens: seq<ResetToken>, token: string) {
    exists t :: t in tokens && t.token == token
  }

  // ---- the database's uniqueness constraints ----

  /** An enrollment the table accepts: no enrollment with the same
      (user, bootcamp) pair and none with the same non-null transaction. */
  predicate Admissible(es: seq<Enrollment>, e: Enrollment) {
    && !HasPair(es, e.userId, e.bootcampId)
    && (e.transactionId.Some? ==> !HasTransaction(es, e.transactionId.value))
  }

  ghost predicate UniquePairs(es: seq<Enrollment>) {
    forall i, j :: 0 <= i < j < |es| ==> es[i].userId != es[j].userId || es[i].bootcampId != es[j].bootcampId
  }

  ghost predicate UniqueTransactions(es: seq<Enrollment>) {
    forall i, j :: 0 <= i < j < |es| && es[i].transactionId.Some? ==> es[i].transactionId != es[j].transactionId
  }

  /** The two enrollment invariants: at most one enrollment per (user,
      bootcamp) pair and at most one per non-null transaction id. */
  ghost predicate EnrollmentsOk(es: seq<Enrollment>) {
    UniquePairs(es) && UniqueTransactions(es)
  }

  ghost predicate UniqueEmails(users: seq<User>) {
    forall i, j :: 0 <= i < j < |users| ==> users[i].email != users[j].email
  }

  ghost predicate UniqueEntries(wl: seq<WaitlistEntry>) {
    forall i, j :: 0 <= i < j < |wl| ==> wl[i] != wl[j]
  }

  ghost predicate UniqueTokens(tokens: seq<ResetToken>) {
    forall i, j :: 0 <= i < j < |tokens| ==> tokens[i].token != tokens[j].token
  }

  ghost predicate UniqueCodeIds(codes: seq<DiscountCode>) {
    forall i, j :: 0 <= i < j < |codes| ==> codes[i].id != codes[j].id
  }

  /** `currentUses <= maxUses` whenever `maxUses` is set. */
  ghost predicate UsesWithinCap(codes: seq<DiscountCode>) {
    forall i :: 0 <= i < |codes| && codes[i].maxUses.Some? ==> codes[i].currentUses <= codes[i].maxUses.value
  }

  // ---- applying the outcome of a route to the tables ----

  /** The enrollment table after a route that inserted `added`, if anything. */
  function Commit(es: seq<Enrollment>, added: Option<Enrollment>): seq<Enrollment> {
    if added.Some? then es + [added.value] else es
  }

  /** `discountCode.update({ where: { id }, data: { currentUses: { increment: 1 } } })`. */
  function IncrementUses(codes: seq<DiscountCode>, id: string): (r: seq<DiscountCode>)
    ensures |r| == |codes|
    ensures forall i :: 0 <= i < |r| ==> r[i] == if codes[i].id == id then codes[i].(currentUses := codes[i].currentUses + 1) else codes[i]
  {
    seq(|codes|, i requires 0 <= i < |codes| =>
      if codes[i].id == id then codes[i].(currentUses := codes[i].currentUses + 1) else codes[i])
  }

  /** Counting a use changes no code string, so a lookup after it finds the
      same code, with the same id and percentage, and only its counter moved. */
  lemma FindCodeAfterIncrement(codes: seq<DiscountCode>, id: string, code: string)
    ensures FindCode(IncrementUses(codes, id), code).Some? <==> FindCode(codes, code).Some?
    ensures FindCode(codes, code).Some? ==>
              var d := FindCode(codes, code).value;
              FindCode(IncrementUses(codes, id), code).value
              == if d.id == id then d.(currentUses := d.currentUses + 1) else d
  {
    var codes' := IncrementUses(codes, id);
    var k := CodeIndex(codes, code);
    var k' := CodeIndex(codes', code);
    if k.Some? {
      assert codes'[k.value].code == code;
      assert k'.Some?;
      assert k'.value == k.value;
    }
  }

  /** The discount table after a route that inserted `added`: the code the
      new enrollment names, if any, has its use counted. */
  function CountUse(codes: seq<DiscountCode>, added: Option<Enrollment>): seq<DiscountCode> {
    if added.Some? && added.value.discountCodeId.Some? then IncrementUses(codes, added.value.discountCodeId.value)
    else codes
  }

  /** The number of enrollments that counted a use of code `id`. */
  function Refs(es: seq<Enrollment>, id: string): nat {
    |Filter(es, (e: Enrollment) => e.discountCodeId == Some(id))|
  }

  /** Inserting an admissible enrollment keeps both enrollment invariants. */
  lemma CommitKeepsEnrollmentsOk(es: seq<Enrollment>, added: Option<Enrollment>)
    requires EnrollmentsOk(es)
    requires added.Some? ==> Admissible(es, added.value)
    ensures EnrollmentsOk(Commit(es, added))
  {
    if added.Some? {
      var e := added.value;
      var es' := es + [e];
      forall i, j | 0 <= i < j < |es'|
        ensures es'[i].userId != es'[j].userId || es'[i].bootcampId != es'[j].bootcampId
      {
        if j == |es| {
          assert es'[i] in es;
        }
      }
      forall i, j | 0 <= i < j < |es'| && es'[i].transactionId.Some?
        ensures es'[i].transactionId != es'[j].transactionId
      {
        if j == |es| {
          assert es'[i] in es;
        }
      }
    }
  }

  /** Discount usage is exact: for every code, `currentUses` minus the number
      of enrollments that name it is the same before and after a commit. */
  lemma CommitBalancesUses(codes: seq<DiscountCode>, es: seq<Enrollment>, added: Option<Enrollment>, i: nat)
    requires i < |codes|
    ensures |CountUse(codes, added)| == |codes|
    ensures CountUse(codes, added)[i].currentUses - Refs(Commit(es, added), codes[i].id)
         == codes[i].currentUses - Refs(es, codes[i].id)
  {
    if added.Some? {
      var p := (e: Enrollment) => e.discountCodeId == Some(codes[i].id);
      FilterAppend(es, [added.value], p);
      assert Refs(Commit(es, added), codes[i].id) == Refs(es, codes[i].id) + |Filter([added.value], p)|;
    }
  }

  /** The counted use of an eligible code (one below its cap) keeps every code
      within its cap, when code ids are unique. */
  lemma CountUseWithinCap(codes: seq<DiscountCode>, added: Option<Enrollment>, d: DiscountCode)
    requires UsesWithinCap(codes) && UniqueCodeIds(codes)
    requires added.Some? && added.value.discountCodeId.Some? ==>
               added.value.discountCodeId == Some(d.id) && d in codes &&
               (d.maxUses.Some? ==> d.currentUses < d.maxUses.value)
    ensures UsesWithinCap(CountUse(codes, added))
  {
    if added.Some? && added.value.discountCodeId.Some? {
      var r := CountUse(codes, added);
      var k :| 0 <= k < |codes| && codes[k] == d;
      forall i | 0 <= i < |r| && r[i].maxUses.Some?
        ensures r[i].currentUses <= r[i].maxUses.value
      {
        if i != k {
          assert codes[i].id != codes[k].id;
        }
      }
    }
  }

  // ---- the tables, updated in place by the route handlers ----

  class Db {
    var users: seq<User>
    var bootcamps: seq<Bootcamp>
    var codes: seq<DiscountCode>
    var enrollments: seq<Enrollment>
    var waitlist: seq<WaitlistEntry>
    var tokens: seq<ResetToken>

    constructor (users: seq<User>, bootcamps: seq<Bootcamp>, codes: seq<DiscountCode>)
      ensures this.users == users && this.bootcamps == bootcamps && this.codes == codes
      ensures enrollments == [] && waitlist == [] && tokens == []
    {
      this.users, this.bootcamps, this.codes := users, bootcamps, codes;
      enrollments, waitlist, tokens := [], [], [];
    }

    /** `enrollment.create`: refused (the ORM throws) when it would break a
        uniqueness constraint. */
    method CreateEnrollment(e: Enrollment) returns (ok: bool)
      modifies this`enrollments
      ensures ok == Admissible(old(enrollments), e)
      ensures enrollments == if ok then old(enrollments) + [e] else old(enrollments)
    {
      ok := Admissible(enrollments, e);
      if ok {
        enrollments := enrollments + [e];
      }
    }

    method IncrementDiscountUses(id: string)
      modifies this`codes
      ensures codes == IncrementUses(old(codes), id)
    {
      codes := IncrementUses(codes, id);
    }

    /** `user.create`: refused when the email is already registered. */
    method CreateUser(u: User) returns (ok: bool)
      modifies this`users
      ensures ok == FindUserByEmail(old(users), u.email).None?
      ensures users == if ok then old(users) + [u] else old(users)
    {
      ok := FindUserByEmail(users, u.email).None?;
      if ok {
        users := users + [u];
      }
    }

    /** `user.update({ where: { id }, data: { password } })`. */
    method SetPassword(id: string, passwordHash: string)
      modifies this`users
      ensures users == SetPasswordById(old(users), id, passwordHash)
    {
      users := SetPasswordById(users, id, passwordHash);
    }

    /** `waitlistEntry.create`: refused on a duplicate (user, bootcamp). */
    method CreateWaitlistEntry(w: WaitlistEntry) returns (ok: bool)
      modifies this`waitlist
      ensures ok == (w !in old(waitlist))
      ensures waitlist == if ok then old(waitlist) + [w] else old(waitlist)
    {
      ok := w !in waitlist;
      if ok {
        waitlist := waitlist + [w];
      }
    }

    /** `passwordResetToken.deleteMany({ where: { email } })`. */
    method DeleteTokensFor(email: string)
      modifies this`tokens
      ensures tokens == WithoutEmail(old(tokens), email)
    {
      tokens := WithoutEmail(tokens, email);
    }

    /** `passwordResetToken.delete({ where: { id } })` of the record at `i`. */
    method DeleteTokenAt(i: nat)
      requires i < |tokens|
      modifies this`tokens
      ensures tokens == RemoveAt(old(tokens), i)
    {
      tokens := RemoveAt(tokens, i);
    }

    /** `passwordResetToken.create`: the token column is unique, so a record
        whose token is already stored is refused. */
    method CreateToken(t: ResetToken) returns (ok: bool)
      modifies this`tokens
      ensures ok == !HasToken(old(tokens), t.token)
      ensures tokens == if ok then old(tokens) + [t] else old(tokens)
    {
      ok := !HasToken(tokens, t.token);
      if ok {
        tokens := tokens + [t];
      }
    }
  }

  function SetPasswordById(users: seq<User>, id: string, passwordHash: string): (r: seq<User>)
    ensures |r| == |users|
    ensures forall i :: 0 <= i < |r| ==> r[i] == if users[i].id == id then users[i].(passwordHash := passwordHash) else users[i]
  {
    seq(|users|, i requires 0 <= i < |users| =>
      if users[i].id == id then users[i].(passwordHash := passwordHash) else users[i])
  }

  /** The token table without any token issued for `email`. */
  function WithoutEmail(tokens: seq<ResetToken>, email: string): seq<ResetToken> {
    Filter(tokens, (t: ResetToken) => t.email != email)
  }
}
