/** What a request for an account comes to, read off the user table. */
module UserRequests {
  import opened AsciiCases
  import opened Options
  import opened Sequences
  import opened UserAccounts

  // ---------- Refusals ----------

  /** Some user has the email asked for. */
  ghost predicate EmailKnown(a: Accounts, q: Request) {
    q.email.Some? && q.email.value != "" && exists id :: id in a.users && a.users[id].email == q.email
  }

  /** Some user's wallet is, in lower case, the wallet as it was typed. */
  ghost predicate WalletKnown(a: Accounts, q: Request) {
    && q.wallet.Some? && q.wallet.value != ""
    && exists id :: id in a.users && HasWallet(a.users[id]) && Lower(a.users[id].wallet.value) == q.wallet.value
  }

  predicate HasWallet(u: User) {
    u.wallet.Some? && u.wallet.value != ""
  }

  lemma {:induction false} KnownWalletIsIndexed(a: Accounts, q: Request)
    requires WalletsMatch(a) && q.wallet.Some? && q.wallet.value != ""
    ensures WalletKnown(a, q) <==> q.wallet.value in a.wallets
  {
    if id :| id in a.users && HasWallet(a.users[id]) && Lower(a.users[id].wallet.value) == q.wallet.value {
      assert Owns(a, id, q.wallet.value);
    }
    if q.wallet.value in a.wallets {
      assert Owns(a, a.wallets[q.wallet.value], q.wallet.value);
    }
  }

  /** A request is refused for its email if and only if some user has that email; else for its wallet if and only
      if some user has that wallet, and it was typed in lower case.  A refusal changes nothing. */
  lemma {:induction false} RefusedExactlyWhenKnown(a: Accounts, q: Request)
    requires EmailsMatch(a) && WalletsMatch(a) && Drawable(a.codes, CodeBase(q.name), q.suffixes)
    ensures var (b, r) := CreateUser(a, q);
            && (r == Failure(EmailTaken) <==> EmailKnown(a, q))
            && (r == Failure(WalletTaken) <==> !EmailKnown(a, q) && WalletKnown(a, q))
            && (r.Failure? ==> b == a)
  {
    if q.wallet.Some? && q.wallet.value != "" {
      KnownWalletIsIndexed(a, q);
    }
    if q.email.Some? && q.email.value != "" && q.email.value in a.emails {
      assert a.users[a.emails[q.email.value]].email == q.email;
    }
  }

  // ---------- Granted requests ----------

  /** The first `room` characters of a name, spaces left out, in upper case. */
  function Letters(name: string, room: nat): string {
    if name == [] || room == 0 then []
    else if name[0] == ' ' then Letters(name[1..], room)
    else [UpperChar(name[0])] + Letters(name[1..], room - 1)
  }

  lemma {:induction false} WithoutFront(s: string, x: char)
    requires s != []
    ensures Without(s, x) == (if s[0] == x then [] else [s[0]]) + Without(s[1..], x)
  {
    assert s == [s[0]] + s[1..];
    FilterConcat([s[0]], s[1..], Other(x));
    FilterSingle(s[0], Other(x));
  }

  lemma {:induction false} LettersMean(name: string, room: nat)
    ensures var all := Without(Upper(name), ' ');
            Letters(name, room) == if |all| > room then all[..room] else all
  {
    if name != [] {
      UpperFront(name);
      WithoutFront(Upper(name), ' ');
      assert Upper(name)[1..] == Upper(name[1..]);
      UpperSpace(name[0]);
      if name[0] == ' ' {
        LettersMean(name[1..], room);
      } else if room > 0 {
        LettersMean(name[1..], room - 1);
      }
    }
  }

  lemma {:induction false} UpperSpace(c: char)
    ensures UpperChar(c) == ' ' <==> c == ' '
  {
  }

  /** The code of a new user: the letters of the name, and the first drawn suffix that makes it a code no user has. */
  ghost predicate FirstFreeCode(a: Accounts, q: Request, code: string) {
    exists i :: 0 <= i < |q.suffixes| && code == Letters(q.name, 6) + q.suffixes[i]
                && (forall id :: id in a.users ==> a.users[id].code != code)
                && forall j :: 0 <= j < i ==> CodeInUse(a, Letters(q.name, 6) + q.suffixes[j])
  }

  ghost predicate CodeInUse(a: Accounts, code: string) {
    exists id :: id in a.users && a.users[id].code == code
  }

  lemma {:induction false} UsedCodesAreIndexed(a: Accounts, code: string)
    requires CodesMatch(a)
    ensures CodeInUse(a, code) <==> code in a.codes
  {
    if code in a.codes {
      assert a.users[a.codes[code]].code == code;
    }
  }

  lemma {:induction false} FreshCodeIsFirst(codes: map<string, UserId>, base: string, suffixes: seq<string>)
    returns (i: nat)
    requires Drawable(codes, base, suffixes)
    ensures i < |suffixes| && FreshCode(codes, base, suffixes) == base + suffixes[i]
    ensures base + suffixes[i] !in codes && forall j :: 0 <= j < i ==> base + suffixes[j] in codes
  {
    if base + suffixes[0] !in codes {
      i := 0;
    } else {
      assert Drawable(codes, base, suffixes[1..]) by {
        var k :| 0 <= k < |suffixes| && base + suffixes[k] !in codes;
        assert suffixes[1..][k - 1] == suffixes[k];
      }
      var rest := FreshCodeIsFirst(codes, base, suffixes[1..]);
      i := rest + 1;
      forall j | 0 <= j < i
        ensures base + suffixes[j] in codes
      {
        assert j > 0 ==> suffixes[1..][j - 1] == suffixes[j];
      }
    }
  }

  lemma {:induction false} NewCodeIsFirstFree(a: Accounts, q: Request)
    requires CodesMatch(a) && Drawable(a.codes, CodeBase(q.name), q.suffixes)
    ensures FirstFreeCode(a, q, FreshCode(a.codes, CodeBase(q.name), q.suffixes))
  {
    LettersMean(q.name, 6);
    var base := CodeBase(q.name);
    var i := FreshCodeIsFirst(a.codes, base, q.suffixes);
    forall j | 0 <= j < i
      ensures CodeInUse(a, base + q.suffixes[j])
    {
      UsedCodesAreIndexed(a, base + q.suffixes[j]);
    }
    UsedCodesAreIndexed(a, base + q.suffixes[i]);
  }

  /** `id` is the user whose referral code the request names. */
  ghost predicate Refers(a: Accounts, q: Request, id: UserId) {
    q.referrer.Some? && q.referrer.value != "" && id in a.users && a.users[id].code == q.referrer.value
  }

  lemma {:induction false} ReferrerMeans(a: Accounts, q: Request, id: UserId)
    requires CodesMatch(a)
    ensures Referrer(a, q.referrer) == Some(id) <==> Refers(a, q, id)
  {
  }

  lemma {:induction false} AddedTable(a: Accounts, b: Accounts, u: User)
    requires Added(a, b, u)
    ensures b.order == a.order + [u.id] && b.users.Keys == a.users.Keys + {u.id} && b.users[u.id] == u
  {
  }

  /** A granted request adds the user it asks for: with its name, email and wallet, the first free code, and the
      one user whose code it named as the referrer, who gains a referral.  Nothing else changes in the table. */
  lemma {:induction false} GrantedUserIsAsAsked(a: Accounts, q: Request)
    requires Sound(a) && q.id !in a.users && Drawable(a.codes, CodeBase(q.name), q.suffixes)
    requires CreateUser(a, q).1.Success?
    ensures var (b, r) := CreateUser(a, q);
            var u := r.value;
            && b.order == a.order + [q.id] && b.users.Keys == a.users.Keys + {q.id} && b.users[q.id] == u
            && u.id == q.id && u.name == q.name && u.email == q.email && u.wallet == q.wallet
            && u.totalReferrals == 0 && (u.role == Admin <==> a.users == map[])
            && FirstFreeCode(a, q, u.code)
            && (forall id :: u.referredBy == Some(id) <==> Refers(a, q, id))
            && forall id :: id in a.users ==>
                 b.users[id] == a.users[id].(totalReferrals := a.users[id].totalReferrals
                   + if Refers(a, q, id) then 1 else 0)
  {
    var u := NewUser(a, q, FreshCode(a.codes, CodeBase(q.name), q.suffixes));
    StoredAdds(a, q, u);
    AddedTable(a, Stored(a, q, u), u);
    NewCodeIsFirstFree(a, q);
    forall id
      ensures u.referredBy == Some(id) <==> Refers(a, q, id)
    {
      ReferrerMeans(a, q, id);
    }
  }
}
