/** The in-memory store of API tokens in go/api-frontend/aaa. A token is found while it was stored or touched
    within the inactivity timeout; its info is given out, and it can be touched, only up to a maximum after the
    creation of that info. Times are integers; the clock is an argument of every operation. */
module Tokens {

  class TokenInfo {
    var createdAt: int

    constructor ()
    {
    }
  }

  /** An entry of the cache: it is served up to and including its expiration. */
  datatype Item = Item(info: TokenInfo, expiration: int)

  class MemTokenBackend {
    const timeout: int
    const maxExpiration: int
    var store: map<string, Item>
    /** When each token was last stored or effectively touched. */
    ghost var renewedAt: map<string, int>

    ghost function Infos(): (r: set<TokenInfo>)
      reads this
    {
      set t | t in store :: store[t].info
    }

    ghost predicate Valid(now: int)
      reads this, Infos()
    {
      && timeout > 0 && maxExpiration >= 0 && store.Keys <= renewedAt.Keys
      && forall t :: t in store ==>
           && store[t].expiration == renewedAt[t] + timeout
           && store[t].info.createdAt <= now && renewedAt[t] <= store[t].info.createdAt + maxExpiration
    }

    constructor (timeout: int, maxExpiration: int)
      requires timeout > 0 && maxExpiration >= 0
      ensures this.timeout == timeout && this.maxExpiration == maxExpiration && store == map[]
      ensures forall now :: Valid(now)
    {
      this.timeout, this.maxExpiration := timeout, maxExpiration;
      store, renewedAt := map[], map[];
    }

    /** Stored or touched recently enough. */
    ghost predicate Active(token: string, now: int)
      reads this
    {
      token in store && token in renewedAt && now <= renewedAt[token] + timeout
    }

    /** The last moment at which the token's info is given out, however often it is touched. */
    ghost function Deadline(token: string): (t: int)
      requires token in store
      reads this, store[token].info
    {
      store[token].info.createdAt + maxExpiration
    }

    ghost predicate Live(token: string, now: int)
      reads this, if token in store then {store[token].info} else {}
    {
      Active(token, now) && now <= Deadline(token)
    }

    /** Still found, but past its deadline. */
    ghost predicate Outlived(token: string, now: int)
      reads this, if token in store then {store[token].info} else {}
    {
      Active(token, now) && now > Deadline(token)
    }

    /** What authentication asks. It and `TokenInfoForToken` disagree exactly on an outlived token, and that for
        no longer than the timeout. */
    method TokenIsValid(token: string, now: int) returns (found: bool)
      requires Valid(now)
      ensures found <==> Live(token, now) || Outlived(token, now)
      ensures found ==> now <= Deadline(token) + timeout
    {
      found := token in store && now <= store[token].expiration;
    }

    method TokenInfoForToken(token: string, now: int) returns (info: TokenInfo?, expiration: int)
      requires Valid(now)
      ensures info != null <==> Live(token, now)
      ensures info != null ==> info == store[token].info && now <= expiration
      ensures info != null ==> expiration <= Deadline(token) && expiration <= renewedAt[token] + timeout
      ensures info != null ==> expiration == Deadline(token) || expiration == renewedAt[token] + timeout
    {
      if token in store && now <= store[token].expiration {
        info := store[token].info;
        if now - info.createdAt > maxExpiration {
          return null, 0;
        }
        expiration := store[token].expiration;
        if expiration > info.createdAt + maxExpiration {
          expiration := info.createdAt + maxExpiration;
        }
      } else {
        return null, 0;
      }
    }

    /** The info may already stand under other tokens: their deadline moves with it. */
    method StoreTokenInfo(token: string, info: TokenInfo, now: int)
      requires Valid(now)
      modifies this, info
      ensures Valid(now) && info.createdAt == now
      ensures store == old(store)[token := Item(info, now + timeout)] && renewedAt == old(renewedAt)[token := now]
      ensures forall t :: t in store ==> Deadline(t) == if store[t].info == info then now + maxExpiration else old(Deadline(t))
    {
      info.createdAt := now;
      store := store[token := Item(info, now + timeout)];
      renewedAt := renewedAt[token := now];
    }

    /** Touching renews a live token and does nothing else: in particular it never moves a deadline. */
    method TouchTokenInfo(token: string, now: int)
      requires Valid(now)
      modifies this
      ensures Valid(now) && store.Keys == old(store.Keys) && forall t :: t in store ==> store[t].info == old(store[t].info)
      ensures renewedAt == if old(Live(token, now)) then old(renewedAt)[token := now] else old(renewedAt)
    {
      var info, expiration := TokenInfoForToken(token, now);
      if info != null {
        store := store[token := Item(info, now + timeout)];
        renewedAt := renewedAt[token := now];
      }
    }
  }
}
