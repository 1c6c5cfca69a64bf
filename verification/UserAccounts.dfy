/** Account creation: the user table, its email, wallet and referral indexes, and the referral
    counters. */
module UserAccounts {
  import opened AsciiCases
  import opened Options
  import opened Sequences

  datatype UserId = UserId(token: string)

  datatype Role = Viewer | Admin

  datatype User = User(id: UserId, name: string, email: Option<string>, wallet: Option<string>,
                       code: string, referredBy: Option<UserId>, totalReferrals: nat, role: Role)

  /** `order` is the insertion order of the user table. */
  datatype Accounts = Accounts(order: seq<UserId>, users: map<UserId, User>, emails: map<string, UserId>,
                               wallets: map<string, UserId>, codes: map<string, UserId>)

  const EMPTY := Accounts([], map[], map[], map[], map[])

  /** A request, with the random material drawn for it: the user id and, in order of drawing, the
      suffixes tried for the referral code. */
  datatype Request = Request(name: string, email: Option<string>, wallet: Option<string>, referrer: Option<string>,
                             id: UserId, suffixes: seq<string>)

  datatype Error = EmailTaken | WalletTaken

  /** Present and not the empty string. */
  predicate Given(o: Option<string>) {
    o.Some? && o.value != ""
  }

  function CodeBase(name: string): string {
    var base := Without(Upper(name), ' ');
    if |base| > 6 then base[..6] else base
  }

  /** Some drawn suffix gives a code not in use; the drawing loop ends when it comes up. */
  ghost predicate Drawable(codes: map<string, UserId>, base: string, suffixes: seq<string>) {
    exists i :: 0 <= i < |suffixes| && base + suffixes[i] !in codes
  }

  /** The first drawn code that is not in use. */
  function FreshCode(codes: map<string, UserId>, base: string, suffixes: seq<string>): (code: string)
    requires Drawable(codes, base, suffixes)
    ensures code !in codes
  {
    if base + suffixes[0] !in codes then base + suffixes[0]
    else
      assert Drawable(codes, base, suffixes[1..]) by {
        var i :| 0 <= i < |suffixes| && base + suffixes[i] !in codes;
        assert suffixes[1..][i - 1] == suffixes[i];
      }
      FreshCode(codes, base, suffixes[1..])
  }

  function Referrer(a: Accounts, code: Option<string>): Option<UserId> {
    if Given(code) && code.value in a.codes then Some(a.codes[code.value]) else None
  }

  function Refused(a: Accounts, q: Request): Option<Error> {
    if Given(q.email) && q.email.value in a.emails then Some(EmailTaken)
    else if Given(q.wallet) && q.wallet.value in a.wallets then Some(WalletTaken)
    else None
  }

  function Counted(users: map<UserId, User>, referrer: Option<UserId>): map<UserId, User> {
    if referrer.Some? && referrer.value in users
    then users[referrer.value := users[referrer.value].(totalReferrals := users[referrer.value].totalReferrals + 1)]
    else users
  }

  function NewUser(a: Accounts, q: Request, code: string): User {
    User(q.id, q.name, q.email, q.wallet, code, Referrer(a, q.referrer), 0, if a.users == map[] then Admin else Viewer)
  }

  function Stored(a: Accounts, q: Request, u: User): Accounts {
    Accounts(if u.id in a.users then a.order else a.order + [u.id],
             Counted(a.users, u.referredBy)[u.id := u],
             if Given(q.email) then a.emails[q.email.value := u.id] else a.emails,
             if Given(q.wallet) then a.wallets[Lower(q.wallet.value) := u.id] else a.wallets,
             a.codes[u.code := u.id])
  }

  function CreateUser(a: Accounts, q: Request): (Accounts, Result<User, Error>)
    requires Drawable(a.codes, CodeBase(q.name), q.suffixes)
  {
    var refused := Refused(a, q);
    if refused.Some? then (a, Failure(refused.value)) else
    var u := NewUser(a, q, FreshCode(a.codes, CodeBase(q.name), q.suffixes));
    (Stored(a, q, u), Success(u))
  }

  // ---------- The invariant ----------

  ghost predicate TableMatches(a: Accounts) {
    && (forall id :: id in a.order <==> id in a.users)
    && (forall id :: id in a.users ==> a.users[id].id == id)
    && Distinct(a.order)
  }

  /** Codes and users are in bijection. */
  ghost predicate CodesMatch(a: Accounts) {
    && (forall c :: c in a.codes ==> a.codes[c] in a.users && a.users[a.codes[c]].code == c)
    && (forall id :: id in a.users ==> a.users[id].code in a.codes && a.codes[a.users[id].code] == id)
  }

  /** The email index holds exactly the emails of the users, each for its one user. */
  ghost predicate EmailsMatch(a: Accounts) {
    && (forall e :: e in a.emails ==> a.emails[e] in a.users && a.users[a.emails[e]].email == Some(e))
    && (forall id :: id in a.users && Given(a.users[id].email) ==>
          a.users[id].email.value in a.emails && a.emails[a.users[id].email.value] == id)
  }

  /** A user was referred only by a user created before. */
  ghost predicate ReferralsPointBack(a: Accounts) {
    forall j :: 0 <= j < |a.order| && a.order[j] in a.users && a.users[a.order[j]].referredBy.Some? ==>
      a.users[a.order[j]].referredBy.value in a.order[..j]
  }

  /** How many of the listed users were referred by `id`. */
  function ReferredBy(order: seq<UserId>, users: map<UserId, User>, id: UserId): nat {
    if order == [] then 0 else
    var last := order[|order| - 1];
    ReferredBy(order[..|order| - 1], users, id) + if last in users && users[last].referredBy == Some(id) then 1 else 0
  }

  ghost predicate CountsMatch(a: Accounts) {
    forall id :: id in a.users ==> a.users[id].totalReferrals == ReferredBy(a.order, a.users, id)
  }

  ghost predicate OneAdmin(a: Accounts) {
    forall j :: 0 <= j < |a.order| && a.order[j] in a.users ==> (a.users[a.order[j]].role == Admin <==> j == 0)
  }

  ghost predicate Sound(a: Accounts) {
    && TableMatches(a) && CodesMatch(a) && EmailsMatch(a)
    && ReferralsPointBack(a) && CountsMatch(a) && OneAdmin(a)
  }

  lemma {:induction false} ReferredByAgrees(order: seq<UserId>, u: map<UserId, User>, v: map<UserId, User>, id: UserId)
    requires forall k :: k in order ==> k in u && k in v && u[k].referredBy == v[k].referredBy
    ensures ReferredBy(order, u, id) == ReferredBy(order, v, id)
  {
    if order != [] {
      assert order[|order| - 1] in order;
      ReferredByAgrees(order[..|order| - 1], u, v, id);
    }
  }

  lemma {:induction false} NobodyReferredByStrangers(order: seq<UserId>, users: map<UserId, User>, id: UserId)
    requires forall k :: k in order && k in users ==> users[k].referredBy != Some(id)
    ensures ReferredBy(order, users, id) == 0
  {
    if order != [] {
      assert order[|order| - 1] in order;
      NobodyReferredByStrangers(order[..|order| - 1], users, id);
    }
  }

  /** What storing a new user `u` does to the table. */
  ghost predicate Added(a: Accounts, b: Accounts, u: User) {
    && u.id !in a.users && b.order == a.order + [u.id]
    && (forall id :: id in b.users <==> id in a.users || id == u.id)
    && b.users[u.id] == u
    && (forall id :: id in a.users ==>
          b.users[id] == a.users[id].(totalReferrals := a.users[id].totalReferrals
            + if u.referredBy == Some(id) then 1 else 0))
  }

  lemma {:induction false} AddedKeepsTable(a: Accounts, b: Accounts, u: User)
    requires TableMatches(a) && Added(a, b, u)
    ensures TableMatches(b)
  {
    DistinctAppend(a.order, u.id);
  }

  lemma {:induction false} AddedKeepsReferrals(a: Accounts, b: Accounts, u: User)
    requires TableMatches(a) && Added(a, b, u) && ReferralsPointBack(a)
    requires u.referredBy.Some? ==> u.referredBy.value in a.users
    ensures ReferralsPointBack(b)
  {
    forall j | 0 <= j < |b.order| && b.order[j] in b.users && b.users[b.order[j]].referredBy.Some?
      ensures b.users[b.order[j]].referredBy.value in b.order[..j]
    {
      if j < |a.order| {
        assert b.order[j] == a.order[j] && a.order[j] in a.order && b.order[..j] == a.order[..j];
      } else {
        assert b.order[..j] == a.order;
      }
    }
  }

  lemma {:induction false} NobodyKnowsANewcomer(a: Accounts, id: UserId)
    requires TableMatches(a) && ReferralsPointBack(a) && id !in a.users
    ensures ReferredBy(a.order, a.users, id) == 0
  {
    forall k | k in a.order
      ensures a.users[k].referredBy != Some(id)
    {
      var j :| 0 <= j < |a.order| && a.order[j] == k;
      assert forall x :: x in a.order[..j] ==> x in a.order;
    }
    NobodyReferredByStrangers(a.order, a.users, id);
  }

  /** The newcomer counts for its referrer and for nobody else. */
  lemma {:induction false} AddedCounts(a: Accounts, b: Accounts, u: User, id: UserId)
    requires TableMatches(a) && Added(a, b, u)
    requires u.referredBy.Some? ==> u.referredBy.value in a.users
    ensures ReferredBy(b.order, b.users, id)
            == ReferredBy(a.order, a.users, id) + if u.referredBy == Some(id) then 1 else 0
  {
    assert b.order[..|a.order|] == a.order;
    ReferredByAgrees(a.order, a.users, b.users, id);
  }

  lemma {:induction false} AddedKeepsCounts(a: Accounts, b: Accounts, u: User)
    requires TableMatches(a) && Added(a, b, u) && CountsMatch(a) && ReferralsPointBack(a)
    requires u.referredBy.Some? ==> u.referredBy.value in a.users
    requires u.totalReferrals == 0
    ensures CountsMatch(b)
  {
    forall id | id in b.users
      ensures b.users[id].totalReferrals == ReferredBy(b.order, b.users, id)
    {
      AddedCounts(a, b, u, id);
      if id == u.id {
        NobodyKnowsANewcomer(a, u.id);
      }
    }
  }

  lemma {:induction false} AddedKeepsAdmin(a: Accounts, b: Accounts, u: User)
    requires TableMatches(a) && Added(a, b, u) && OneAdmin(a)
    requires u.role == (if a.users == map[] then Admin else Viewer)
    ensures OneAdmin(b)
  {
    forall j | 0 <= j < |b.order| && b.order[j] in b.users
      ensures b.users[b.order[j]].role == Admin <==> j == 0
    {
      if j < |a.order| {
        assert b.order[j] == a.order[j] && a.order[j] in a.order;
      } else if a.order != [] {
        assert a.order[0] in a.order;
      }
    }
  }

  /** What the index updates need to know of a new user. */
  ghost predicate Newcomer(a: Accounts, q: Request, u: User) {
    && u.id == q.id && u.id !in a.users && u.email == q.email
    && u.code !in a.codes && u.totalReferrals == 0
    && u.referredBy == Referrer(a, q.referrer)
    && (Given(q.email) ==> q.email.value !in a.emails)
    && u.role == if a.users == map[] then Admin else Viewer
  }

  lemma {:induction false} StoredAdds(a: Accounts, q: Request, u: User)
    requires CodesMatch(a) && Newcomer(a, q, u)
    ensures Added(a, Stored(a, q, u), u)
    ensures u.referredBy.Some? ==> u.referredBy.value in a.users
  {
  }

  lemma {:induction false} StoredKeepsCodes(a: Accounts, b: Accounts, q: Request, u: User)
    requires CodesMatch(a) && Added(a, b, u) && u.code !in a.codes && b.codes == a.codes[u.code := u.id]
    ensures CodesMatch(b)
  {
  }

  lemma {:induction false} StoredKeepsEmails(a: Accounts, b: Accounts, q: Request, u: User)
    requires EmailsMatch(a) && Added(a, b, u) && u.email == q.email
    requires Given(q.email) ==> q.email.value !in a.emails
    requires b.emails == if Given(q.email) then a.emails[q.email.value := u.id] else a.emails
    ensures EmailsMatch(b)
  {
  }

  lemma {:induction false} StoredSound(a: Accounts, q: Request, u: User)
    requires Sound(a) && Newcomer(a, q, u)
    ensures Sound(Stored(a, q, u))
  {
    var b := Stored(a, q, u);
    StoredAdds(a, q, u);
    StoredKeepsCodes(a, b, q, u);
    StoredKeepsEmails(a, b, q, u);
    AddedKeepsTable(a, b, u);
    AddedKeepsReferrals(a, b, u);
    AddedKeepsCounts(a, b, u);
    AddedKeepsAdmin(a, b, u);
  }

  lemma {:induction false} CreateUserSound(a: Accounts, q: Request)
    requires Sound(a) && q.id !in a.users
    requires Drawable(a.codes, CodeBase(q.name), q.suffixes)
    ensures Sound(CreateUser(a, q).0)
  {
    if Refused(a, q).None? {
      StoredSound(a, q, NewUser(a, q, FreshCode(a.codes, CodeBase(q.name), q.suffixes)));
    }
  }

  /** Each request of the run draws a fresh user id and, eventually, a fresh code. */
  ghost predicate Served(a: Accounts, qs: seq<Request>)
    decreases |qs|
  {
    qs == [] ||
    (qs[0].id !in a.users && Drawable(a.codes, CodeBase(qs[0].name), qs[0].suffixes)
     && Served(CreateUser(a, qs[0]).0, qs[1..]))
  }

  function RunFrom(a: Accounts, qs: seq<Request>): Accounts
    requires Served(a, qs)
    decreases |qs|
  {
    if qs == [] then a else RunFrom(CreateUser(a, qs[0]).0, qs[1..])
  }

  /** After any sequence of requests, granted or refused, the tables are sound: links point back,
      counters count, codes are in bijection with users, emails are unique, one admin. */
  lemma {:induction false} RunIsSound(a: Accounts, qs: seq<Request>)
    requires Sound(a) && Served(a, qs)
    ensures Sound(RunFrom(a, qs))
    decreases |qs|
  {
    if qs != [] {
      CreateUserSound(a, qs[0]);
      RunIsSound(CreateUser(a, qs[0]).0, qs[1..]);
    }
  }

  lemma {:induction false} RunFromEmptyIsSound(qs: seq<Request>)
    requires Served(EMPTY, qs)
    ensures Sound(RunFrom(EMPTY, qs))
  {
    RunIsSound(EMPTY, qs);
  }

  // ---------- The wallet index ----------

  /** The wallet of user `id` is `w` in lower case. */
  predicate Owns(a: Accounts, id: UserId, w: string) {
    id in a.users && Given(a.users[id].wallet) && Lower(a.users[id].wallet.value) == w
  }

  /** The wallet index holds exactly the wallets of the users in lower case, each for its one user. */
  ghost predicate WalletsMatch(a: Accounts) {
    && (forall w :: w in a.wallets ==> Lower(w) == w && Owns(a, a.wallets[w], w))
    && (forall id, w :: Owns(a, id, w) ==> w in a.wallets && a.wallets[w] == id)
  }

  lemma {:induction false} OwnsOneMore(a: Accounts, b: Accounts, u: User, id: UserId, w: string)
    requires Added(a, b, u)
    ensures Owns(b, id, w) <==> Owns(a, id, w) || (id == u.id && Given(u.wallet) && Lower(u.wallet.value) == w)
    ensures Owns(a, id, w) ==> id != u.id
  {
  }

  lemma {:induction false} NewWalletKeepsMatch(a: Accounts, b: Accounts, u: User)
    requires WalletsMatch(a) && Added(a, b, u)
    requires Given(u.wallet) ==> Lower(u.wallet.value) !in a.wallets
    requires b.wallets == if Given(u.wallet) then a.wallets[Lower(u.wallet.value) := u.id] else a.wallets
    ensures WalletsMatch(b)
  {
    if Given(u.wallet) {
      LowerIsIdempotent(u.wallet.value);
    }
    forall id, w
      ensures Owns(b, id, w) ==> w in b.wallets && b.wallets[w] == id
    {
      OwnsOneMore(a, b, u, id, w);
    }
    forall w | w in b.wallets
      ensures Lower(w) == w && Owns(b, b.wallets[w], w)
    {
      OwnsOneMore(a, b, u, b.wallets[w], w);
    }
  }

  lemma {:induction false} KnownWalletBreaksMatch(a: Accounts, b: Accounts, u: User)
    requires WalletsMatch(a) && Added(a, b, u)
    requires Given(u.wallet) && Lower(u.wallet.value) in a.wallets
    requires b.wallets == a.wallets[Lower(u.wallet.value) := u.id]
    ensures !WalletsMatch(b)
  {
    var w := Lower(u.wallet.value);
    OwnsOneMore(a, b, u, a.wallets[w], w);
  }

  /** The uniqueness check looks a wallet up as it was typed, but the index keeps it in lower case.
      So an accepted request takes over the entry of another user's wallet exactly when that wallet
      is registered in another spelling; a request in lower case never does. */
  lemma {:induction false} WalletsStayUniqueExactlyWhen(a: Accounts, q: Request)
    requires Sound(a) && WalletsMatch(a) && q.id !in a.users
    requires Drawable(a.codes, CodeBase(q.name), q.suffixes)
    ensures WalletsMatch(CreateUser(a, q).0)
            <==> Refused(a, q).Some? || !Given(q.wallet) || Lower(q.wallet.value) !in a.wallets
    ensures Given(q.wallet) && Lower(q.wallet.value) == q.wallet.value ==> WalletsMatch(CreateUser(a, q).0)
  {
    if Refused(a, q).None? {
      var u := NewUser(a, q, FreshCode(a.codes, CodeBase(q.name), q.suffixes));
      StoredAdds(a, q, u);
      if Given(q.wallet) && Lower(q.wallet.value) in a.wallets {
        KnownWalletBreaksMatch(a, Stored(a, q, u), u);
      } else {
        NewWalletKeepsMatch(a, Stored(a, q, u), u);
      }
    }
  }

  // ---------- The referral forest ----------

  /** The creation rank of a user. */
  function Rank(a: Accounts, id: UserId): (j: nat)
    requires TableMatches(a) && id in a.users
    ensures j < |a.order| && a.order[j] == id
  {
    var j :| 0 <= j < |a.order| && a.order[j] == id;
    j
  }

  lemma {:induction false} ReferrerIsOlder(a: Accounts, id: UserId)
    requires Sound(a) && id in a.users && a.users[id].referredBy.Some?
    ensures a.users[id].referredBy.value in a.users
    ensures Rank(a, a.users[id].referredBy.value) < Rank(a, id)
  {
    var j, referrer := Rank(a, id), a.users[id].referredBy.value;
    assert referrer in a.order[..j];
    var k :| 0 <= k < j && a.order[..j][k] == referrer;
    assert a.order[k] == referrer;
    assert a.order[Rank(a, referrer)] == a.order[k];
  }

  /** The chain of referrers of a user, ending at one whom nobody referred.  That it is a function
      says that following the links terminates. */
  function Ancestry(a: Accounts, id: UserId): (chain: seq<UserId>)
    requires Sound(a) && id in a.users
    ensures chain != [] && chain[0] == id
    ensures |chain| <= Rank(a, id) + 1
    ensures forall i :: 0 <= i < |chain| ==> chain[i] in a.users
    ensures forall i :: 0 <= i < |chain| - 1 ==> a.users[chain[i]].referredBy == Some(chain[i + 1])
    ensures a.users[chain[|chain| - 1]].referredBy == None
    decreases Rank(a, id)
  {
    match a.users[id].referredBy
    case None => [id]
    case Some(referrer) =>
      ReferrerIsOlder(a, id);
      [id] + Ancestry(a, referrer)
  }

  /** No user is among their own referrers. */
  lemma {:induction false} AncestryDescends(a: Accounts, id: UserId, i: nat)
    requires Sound(a) && id in a.users && 0 < i < |Ancestry(a, id)|
    ensures Ancestry(a, id)[i] != id
    ensures Rank(a, Ancestry(a, id)[i]) < Rank(a, id)
    decreases i
  {
    ReferrerIsOlder(a, id);
    if i > 1 {
      AncestryDescends(a, a.users[id].referredBy.value, i - 1);
    }
  }

  // ---------- The manager object ----------

  class UserManager {
    var order: seq<UserId>
    var users: map<UserId, User>
    var emailToUser: map<string, UserId>
    var walletToUser: map<string, UserId>
    var referralToUser: map<string, UserId>

    function View(): Accounts
      reads this
    {
      Accounts(order, users, emailToUser, walletToUser, referralToUser)
    }

    ghost predicate Valid()
      reads this
    {
      Sound(View())
    }

    constructor ()
      ensures Valid() && View() == EMPTY
    {
      order, users, emailToUser, walletToUser, referralToUser := [], map[], map[], map[], map[];
    }

    /** Draw suffixes until the code is unused. */
    method GenerateReferralCode(name: string, suffixes: seq<string>) returns (code: string)
      requires Drawable(referralToUser, CodeBase(name), suffixes)
      ensures code == FreshCode(referralToUser, CodeBase(name), suffixes)
    {
      var base := CodeBase(name);
      var i := 0;
      assert suffixes[0..] == suffixes;
      code := base + suffixes[0];
      while code in referralToUser
        invariant 0 <= i < |suffixes| && code == base + suffixes[i]
        invariant Drawable(referralToUser, base, suffixes[i..])
        invariant FreshCode(referralToUser, base, suffixes[i..]) == FreshCode(referralToUser, base, suffixes)
        decreases |suffixes| - i
      {
        assert suffixes[i..][1..] == suffixes[i + 1..];
        var k :| 0 <= k < |suffixes[i..]| && base + suffixes[i..][k] !in referralToUser;
        assert k > 0;
        assert Drawable(referralToUser, base, suffixes[i + 1..]) by {
          assert suffixes[i + 1..][k - 1] == suffixes[i..][k];
        }
        i := i + 1;
        code := base + suffixes[i];
      }
    }

    method Create(q: Request) returns (r: Result<User, Error>)
      requires Valid() && q.id !in users
      requires Drawable(referralToUser, CodeBase(q.name), q.suffixes)
      modifies this
      ensures Valid()
      ensures View() == CreateUser(old(View()), q).0
      ensures r == CreateUser(old(View()), q).1
    {
      CreateUserSound(View(), q);
      if Given(q.email) && q.email.value in emailToUser {
        return Failure(EmailTaken);
      }
      if Given(q.wallet) && q.wallet.value in walletToUser {
        return Failure(WalletTaken);
      }
      var u := Grant(q);
      r := Success(u);
    }

    method Grant(q: Request) returns (u: User)
      requires CodesMatch(View()) && q.id !in users
      requires Drawable(referralToUser, CodeBase(q.name), q.suffixes)
      modifies this
      ensures u == NewUser(old(View()), q, FreshCode(old(referralToUser), CodeBase(q.name), q.suffixes))
      ensures View() == Stored(old(View()), q, u)
    {
      var code := GenerateReferralCode(q.name, q.suffixes);
      var role := if users == map[] then Admin else Viewer;
      var referredBy := CountReferral(q.referrer);
      u := User(q.id, q.name, q.email, q.wallet, code, referredBy, 0, role);
      Store(q, u);
    }

    /** Find the referrer and increment their counter. */
    method CountReferral(code: Option<string>) returns (referrer: Option<UserId>)
      requires CodesMatch(View())
      modifies `users
      ensures referrer == Referrer(old(View()), code)
      ensures users == Counted(old(users), referrer)
    {
      referrer := None;
      if Given(code) && code.value in referralToUser {
        var id := referralToUser[code.value];
        referrer := Some(id);
        users := users[id := users[id].(totalReferrals := users[id].totalReferrals + 1)];
      }
    }

    method Store(q: Request, u: User)
      requires u.id !in users
      modifies this
      ensures order == old(order) + [u.id] && users == old(users)[u.id := u]
      ensures emailToUser == if Given(q.email) then old(emailToUser)[q.email.value := u.id] else old(emailToUser)
      ensures walletToUser
              == if Given(q.wallet) then old(walletToUser)[Lower(q.wallet.value) := u.id] else old(walletToUser)
      ensures referralToUser == old(referralToUser)[u.code := u.id]
    {
      order := order + [u.id];
      users := users[u.id := u];
      if Given(q.email) {
        emailToUser := emailToUser[q.email.value := u.id];
      }
      if Given(q.wallet) {
        walletToUser := walletToUser[Lower(q.wallet.value) := u.id];
      }
      referralToUser := referralToUser[u.code := u.id];
    }
  }
}
