/** TokenMetadataService over PostgresTokenMetadataStore, with any number of callers interleaving. */
module MetadataCache {
  import opened Chain
  import opened Text

  datatype Fields = Fields(name: string, symbol: string, decimals: nat)

  datatype Metadata = Metadata(address: string, fields: Fields)

  // ----- addresses as the fetcher reads and writes them -----

  predicate HasPrefix(a: string) {
    |a| >= 2 && a[0] == '0' && (a[1] == 'x' || a[1] == 'X')
  }

  function Body(a: string): string {
    if HasPrefix(a) then a[2..] else a
  }

  predicate IsHexDigit(c: char) {
    '0' <= c <= '9' || 'a' <= c <= 'f' || 'A' <= c <= 'F'
  }

  /** The prefix is optional. */
  predicate IsHexAddress(a: string) {
    |Body(a)| == 40 && forall i :: 0 <= i < 40 ==> IsHexDigit(Body(a)[i])
  }

  /** The token that a spelling names, with or without prefix and in any case. */
  function TokenOf(a: string): string {
    Lower(Body(a))
  }

  /** The chain's answer for each token, and the checksummed spelling of the 40 digits. */
  datatype Fetcher = Fetcher(truth: string -> Fields, checksum: string -> string) {
    /** A checksum is written in the case of the digits. */
    ghost predicate Valid() {
      forall d :: Lower(checksum(d)) == Lower(d)
    }

    /** The spelling that FetchTokenMetadata reports: always with the prefix. */
    function Spell(a: string): string {
      "0x" + checksum(TokenOf(a))
    }

    function Fetched(a: string): Metadata {
      Metadata(Spell(a), truth(TokenOf(a)))
    }
  }

  datatype SaveFate = Saved | LostBefore | LostAfter

  /** A call of GetTokenMetadata, by what it does next. */
  datatype Caller =
    | Ready(address: string)                   // about to read the cache
    | Missed(address: string)                  // about to load the row
    | Found(address: string, md: Metadata)     // row loaded, about to cache it
    | Absent(address: string)                  // no row, about to fetch
    | Fetched(address: string, md: Metadata)   // about to save the row
    | Stored(address: string, md: Metadata)    // row saved, about to cache it
    | Returned(address: string, md: Metadata)
    | Failed(address: string)

  datatype State = State(cache: map<string, Metadata>, table: map<string, Fields>, callers: seq<Caller>)

  datatype Action =
    | Lookup(i: nat)
    | Load(i: nat, fails: bool)
    | Fetch(i: nat, fails: bool)
    | Save(i: nat, fate: SaveFate)
    | PutInCache(i: nat)

  /** Row of LoadTokenMetadata: found under the lower-cased address, returned under the address asked for. */
  function LoadRow(table: map<string, Fields>, address: string): Option<Metadata> {
    if Lower(address) in table then Some(Metadata(address, table[Lower(address)])) else None
  }

  function SaveRow(table: map<string, Fields>, md: Metadata): map<string, Fields> {
    table[Lower(md.address) := md.fields]
  }

  predicate Enabled(s: State, act: Action) {
    && act.i < |s.callers|
    && match act
       case Lookup(i) => s.callers[i].Ready?
       case Load(i, _) => s.callers[i].Missed?
       case Fetch(i, fails) => s.callers[i].Absent? && (fails || IsHexAddress(s.callers[i].address))
       case Save(i, _) => s.callers[i].Fetched?
       case PutInCache(i) => s.callers[i].Found? || s.callers[i].Stored?
  }

  function Goes(s: State, i: nat, c: Caller): State
    requires i < |s.callers|
  {
    s.(callers := s.callers[i := c])
  }

  function Apply(f: Fetcher, s: State, act: Action): State
    requires Enabled(s, act)
  {
    var a := s.callers[act.i].address;
    match act
    case Lookup(i) => Goes(s, i, if Lower(a) in s.cache then Returned(a, s.cache[Lower(a)]) else Missed(a))
    case Load(i, fails) =>
      if fails then Goes(s, i, Failed(a))
      else
        var row := LoadRow(s.table, a);
        Goes(s, i, if row.Some? then Found(a, row.value) else Absent(a))
    case Fetch(i, fails) => Goes(s, i, if fails then Failed(a) else Fetched(a, f.Fetched(a)))
    case Save(i, fate) =>
      var md := s.callers[i].md;
      var table := if fate.LostBefore? then s.table else SaveRow(s.table, md);
      Goes(s, i, if fate.Saved? then Stored(a, md) else Failed(a)).(table := table)
    case PutInCache(i) =>
      var md := s.callers[i].md;
      Goes(s, i, Returned(a, md)).(cache := s.cache[Lower(a) := md])
  }

  ghost predicate Step(f: Fetcher, s: State, s': State) {
    exists act :: Enabled(s, act) && s' == Apply(f, s, act)
  }

  ghost predicate StepAt(f: Fetcher, trace: seq<State>, i: nat)
    requires 0 < i < |trace|
  {
    Step(f, trace[i - 1], trace[i])
  }

  /** Callers start with an empty cache and whatever rows earlier processes saved. */
  ghost predicate Start(f: Fetcher, s: State) {
    && s.cache == map[]
    && (forall k :: k in s.table ==> s.table[k] == f.truth(TokenOf(k)))
    && (forall i :: 0 <= i < |s.callers| ==> s.callers[i].Ready?)
  }

  ghost predicate Run(f: Fetcher, trace: seq<State>) {
    trace != [] && Start(f, trace[0]) && forall i :: 0 < i < |trace| ==> StepAt(f, trace, i)
  }

  // ----- agreement with the fetcher -----

  lemma LowerIsIdempotent(a: string)
    ensures Lower(Lower(a)) == Lower(a)
  {
  }

  lemma TokenOfLower(a: string)
    ensures HasPrefix(Lower(a)) == HasPrefix(a) && TokenOf(Lower(a)) == TokenOf(a)
  {
    if HasPrefix(a) {
      assert Lower(a)[2..] == Lower(a[2..]);
    }
    LowerIsIdempotent(Body(a));
  }

  lemma SpellingNamesTheToken(f: Fetcher, a: string)
    requires f.Valid()
    ensures TokenOf(f.Spell(a)) == TokenOf(a) && Lower(f.Spell(a)) == "0x" + TokenOf(a)
  {
    LowerIsIdempotent(Body(a));
    var d := f.checksum(TokenOf(a));
    assert f.Spell(a)[2..] == d;
    assert Lower("0x" + d) == "0x" + Lower(d);
  }

  ghost predicate Agrees(f: Fetcher, a: string, md: Metadata) {
    TokenOf(md.address) == TokenOf(a) && md.fields == f.truth(TokenOf(a))
  }

  ghost predicate CallerOk(f: Fetcher, s: State, c: Caller) {
    match c
    case Fetched(a, md) => Agrees(f, a, md)
    case Found(a, md) => Agrees(f, a, md)
    case Stored(a, md) => Agrees(f, a, md)
    case Returned(a, md) => Agrees(f, a, md) && Lower(a) in s.cache
    case _ => true
  }

  ghost predicate SucceededFor(s: State, key: string) {
    exists i :: 0 <= i < |s.callers| && s.callers[i].Returned? && Lower(s.callers[i].address) == key
  }

  /** Rows, cached entries and callers agree with the fetcher, and only a success has cached anything. */
  ghost predicate Truthful(f: Fetcher, s: State) {
    && (forall k :: k in s.table ==> s.table[k] == f.truth(TokenOf(k)))
    && (forall k :: k in s.cache ==> Agrees(f, k, s.cache[k]) && SucceededFor(s, k))
    && (forall i :: 0 <= i < |s.callers| ==> CallerOk(f, s, s.callers[i]))
  }

  lemma SuccessPersists(f: Fetcher, s: State, act: Action, key: string)
    requires Enabled(s, act) && SucceededFor(s, key)
    ensures SucceededFor(Apply(f, s, act), key)
  {
    var s' := Apply(f, s, act);
    var i :| 0 <= i < |s.callers| && s.callers[i].Returned? && Lower(s.callers[i].address) == key;
    assert s'.callers[i] == s.callers[i];
  }

  /** The caller that moves stays in agreement. */
  lemma MoverAgrees(f: Fetcher, s: State, act: Action)
    requires f.Valid() && Truthful(f, s) && Enabled(s, act)
    ensures CallerOk(f, Apply(f, s, act), Apply(f, s, act).callers[act.i])
  {
    var c := s.callers[act.i];
    assert CallerOk(f, s, c);
    TokenOfLower(c.address);
    SpellingNamesTheToken(f, c.address);
  }

  lemma SavedRowAgrees(f: Fetcher, s: State, act: Action)
    requires f.Valid() && Truthful(f, s) && Enabled(s, act)
    ensures forall k :: k in Apply(f, s, act).table ==> Apply(f, s, act).table[k] == f.truth(TokenOf(k))
  {
    if act.Save? {
      assert CallerOk(f, s, s.callers[act.i]);
      TokenOfLower(s.callers[act.i].md.address);
    }
  }

  lemma CachedAgrees(f: Fetcher, s: State, act: Action, k: string)
    requires Truthful(f, s) && Enabled(s, act) && k in Apply(f, s, act).cache
    ensures Agrees(f, k, Apply(f, s, act).cache[k]) && SucceededFor(Apply(f, s, act), k)
  {
    var s' := Apply(f, s, act);
    var c := s.callers[act.i];
    if act.PutInCache? && k == Lower(c.address) {
      assert CallerOk(f, s, c);
      TokenOfLower(c.address);
      assert s'.callers[act.i].Returned? && Lower(s'.callers[act.i].address) == k;
    } else {
      SuccessPersists(f, s, act, k);
    }
  }

  lemma StepIsTruthful(f: Fetcher, s: State, act: Action)
    requires f.Valid() && Truthful(f, s) && Enabled(s, act)
    ensures Truthful(f, Apply(f, s, act))
  {
    var s' := Apply(f, s, act);
    SavedRowAgrees(f, s, act);
    forall k | k in s'.cache ensures Agrees(f, k, s'.cache[k]) && SucceededFor(s', k) {
      CachedAgrees(f, s, act, k);
    }
    forall i | 0 <= i < |s'.callers| ensures CallerOk(f, s', s'.callers[i]) {
      assert CallerOk(f, s, s.callers[i]);
      MoverAgrees(f, s, act);
    }
  }

  /**
    Under any interleaving, for addresses in any spelling: every row, every cached entry and every
    success agrees with the fetcher, and only a success caches anything.
    */
  lemma {:induction false} EveryRunIsTruthful(f: Fetcher, trace: seq<State>, i: nat)
    requires f.Valid() && Run(f, trace) && i < |trace|
    ensures Truthful(f, trace[i])
  {
    if i > 0 {
      EveryRunIsTruthful(f, trace, i - 1);
      assert StepAt(f, trace, i);
      var act :| Enabled(trace[i - 1], act) && trace[i] == Apply(f, trace[i - 1], act);
      StepIsTruthful(f, trace[i - 1], act);
    }
  }

  // ----- when every cached entry has its row -----

  ghost predicate Backed(s: State) {
    forall k :: k in s.cache ==> k in s.table
  }

  /**
    What a caller can check before the call: the address has the prefix, or is no address at all
    (and cannot be fetched), or has its row already.
    */
  predicate Safe(table: map<string, Fields>, address: string) {
    HasPrefix(address) || !IsHexAddress(address) || Lower(address) in table
  }

  /** The fetcher's spelling keeps the key exactly if the address was given with its prefix. */
  lemma PrefixKeepsKey(f: Fetcher, a: string)
    requires f.Valid() && IsHexAddress(a)
    ensures Lower(f.Spell(a)) == Lower(a) <==> HasPrefix(a)
  {
    SpellingNamesTheToken(f, a);
    if HasPrefix(a) {
      assert Lower(a)[0] == '0' && Lower(a)[1] == 'x';
      assert Lower(a) == "0x" + Lower(a[2..]);
    }
  }

  ghost predicate CallerBacked(s: State, c: Caller) {
    Safe(s.table, c.address) &&
    match c
    case Absent(a) => HasPrefix(a) || !IsHexAddress(a)
    case Fetched(a, md) => Lower(md.address) == Lower(a)
    case Found(a, _) => Lower(a) in s.table
    case Stored(a, _) => Lower(a) in s.table
    case _ => true
  }

  ghost predicate AllBacked(s: State) {
    Backed(s) && forall i :: 0 <= i < |s.callers| ==> CallerBacked(s, s.callers[i])
  }

  lemma StepStaysBacked(f: Fetcher, s: State, act: Action)
    requires f.Valid() && AllBacked(s) && Enabled(s, act)
    ensures AllBacked(Apply(f, s, act))
  {
    var s' := Apply(f, s, act);
    var c := s.callers[act.i];
    assert CallerBacked(s, c);
    if act.Fetch? && !act.fails {
      PrefixKeepsKey(f, c.address);
    }
    forall i | 0 <= i < |s'.callers| ensures CallerBacked(s', s'.callers[i]) {
      assert CallerBacked(s, s.callers[i]);
    }
  }

  lemma {:induction false} RunStaysBacked(f: Fetcher, trace: seq<State>, i: nat)
    requires f.Valid() && Run(f, trace) && AllBacked(trace[0]) && i < |trace|
    ensures AllBacked(trace[i])
  {
    if i > 0 {
      RunStaysBacked(f, trace, i - 1);
      assert StepAt(f, trace, i);
      var act :| Enabled(trace[i - 1], act) && trace[i] == Apply(f, trace[i - 1], act);
      StepStaysBacked(f, trace[i - 1], act);
    }
  }

  /** One caller alone, all the way from the cache to the fetcher and back. */
  function FetchAlone(f: Fetcher, s: State, i: nat): (trace: seq<State>)
    requires i < |s.callers| && s.callers[i].Ready? && IsHexAddress(s.callers[i].address)
    requires Lower(s.callers[i].address) !in s.cache && Lower(s.callers[i].address) !in s.table
    ensures |trace| == 6 && trace[0] == s
  {
    var s1 := Apply(f, s, Lookup(i));
    var s2 := Apply(f, s1, Load(i, false));
    var s3 := Apply(f, s2, Fetch(i, false));
    var s4 := Apply(f, s3, Save(i, Saved));
    [s, s1, s2, s3, s4, Apply(f, s4, PutInCache(i))]
  }

  /** With an unprefixed address the entry is cached under one key and the row saved under another. */
  lemma UnprefixedLosesItsRow(f: Fetcher, s: State, i: nat)
    requires f.Valid() && Start(f, s) && i < |s.callers| && !Safe(s.table, s.callers[i].address)
    ensures Run(f, FetchAlone(f, s, i)) && !Backed(FetchAlone(f, s, i)[5])
  {
    var a := s.callers[i].address;
    var trace := FetchAlone(f, s, i);
    assert trace[1] == Apply(f, s, Lookup(i)) && trace[2] == Apply(f, trace[1], Load(i, false));
    assert trace[3] == Apply(f, trace[2], Fetch(i, false)) && trace[4] == Apply(f, trace[3], Save(i, Saved));
    assert trace[5] == Apply(f, trace[4], PutInCache(i));
    PrefixKeepsKey(f, a);
    assert Lower(a) in trace[5].cache;
    forall t | 0 < t < |trace| ensures StepAt(f, trace, t) {
      assert t == 1 || t == 2 || t == 3 || t == 4 || t == 5;
    }
  }

  ghost predicate BackedAt(trace: seq<State>, i: nat)
    requires i < |trace|
  {
    Backed(trace[i])
  }

  /** In every state of every run from `s` each cached entry has its row. */
  ghost predicate AlwaysBacked(f: Fetcher, s: State) {
    forall trace, i: nat :: Run(f, trace) && trace[0] == s && i < |trace| ==> BackedAt(trace, i)
  }

  /**
    Every run from a start state keeps each cached entry backed by its row exactly when every
    caller's address is safe: prefixed, not fetchable, or stored before.
    */
  lemma CacheIsBackedIff(f: Fetcher, s: State)
    requires f.Valid() && Start(f, s)
    ensures AlwaysBacked(f, s) <==> forall i :: 0 <= i < |s.callers| ==> Safe(s.table, s.callers[i].address)
  {
    if forall i :: 0 <= i < |s.callers| ==> Safe(s.table, s.callers[i].address) {
      forall trace, i: nat | Run(f, trace) && trace[0] == s && i < |trace| ensures BackedAt(trace, i) {
        RunStaysBacked(f, trace, i);
      }
    } else {
      var i :| 0 <= i < |s.callers| && !Safe(s.table, s.callers[i].address);
      UnprefixedLosesItsRow(f, s, i);
      assert !BackedAt(FetchAlone(f, s, i), 5);
    }
  }

  // ----- later calls -----

  ghost predicate ReturnedCached(s: State, key: string) {
    SucceededFor(s, key) ==> key in s.cache
  }

  lemma StepKeepsCached(f: Fetcher, s: State, act: Action, key: string)
    requires Enabled(s, act) && ReturnedCached(s, key)
    ensures ReturnedCached(Apply(f, s, act), key)
  {
    var s' := Apply(f, s, act);
    assert forall j :: 0 <= j < |s.callers| && j != act.i ==> s'.callers[j] == s.callers[j];
  }

  /** What a call has returned stays in the cache. */
  lemma {:induction false} SuccessIsCached(f: Fetcher, trace: seq<State>, i: nat, key: string)
    requires Run(f, trace) && i < |trace|
    ensures ReturnedCached(trace[i], key)
  {
    if i > 0 {
      SuccessIsCached(f, trace, i - 1, key);
      assert StepAt(f, trace, i);
      var act :| Enabled(trace[i - 1], act) && trace[i] == Apply(f, trace[i - 1], act);
      StepKeepsCached(f, trace[i - 1], act, key);
    }
  }

  /** A caller that touched neither the row nor the fetcher. */
  ghost predicate CacheOnly(c: Caller, address: string) {
    c == Ready(address) || (c.Returned? && c.address == address)
  }

  /**
    Once a call for a key has succeeded, a call for that key that starts later is answered from the
    cache: it never loads a row or fetches.
    */
  lemma {:induction false} LaterCallsHitTheCache(f: Fetcher, trace: seq<State>, t: nat, u: nat, j: nat)
    requires Run(f, trace) && t <= u < |trace| && j < |trace[t].callers|
    requires trace[t].callers[j].Ready? && SucceededFor(trace[t], Lower(trace[t].callers[j].address))
    ensures j < |trace[u].callers| && CacheOnly(trace[u].callers[j], trace[t].callers[j].address)
    ensures Lower(trace[t].callers[j].address) in trace[u].cache
    decreases u - t
  {
    if u == t {
      SuccessIsCached(f, trace, t, Lower(trace[t].callers[j].address));
    } else {
      LaterCallsHitTheCache(f, trace, t, u - 1, j);
      assert StepAt(f, trace, u);
      var act :| Enabled(trace[u - 1], act) && trace[u] == Apply(f, trace[u - 1], act);
    }
  }

  /** What was saved under one spelling of an address is loaded under any other in a different case. */
  lemma LoadAfterSave(table: map<string, Fields>, md: Metadata, address: string)
    ensures Lower(address) == Lower(md.address) ==>
      LoadRow(SaveRow(table, md), address) == Some(Metadata(address, md.fields))
    ensures Lower(address) != Lower(md.address) ==>
      LoadRow(SaveRow(table, md), address) == LoadRow(table, address)
  {
  }

  // ----- the service as an object, called by one caller -----

  class TokenMetadataService {
    var cache: map<string, Metadata>
    var table: map<string, Fields>

    constructor (table: map<string, Fields>)
      ensures cache == map[] && this.table == table
    {
      this.cache, this.table := map[], table;
    }

    /** Rows and cached entries agree with the fetcher. */
    ghost predicate Consistent(f: Fetcher)
      reads this
    {
      && (forall k :: k in table ==> table[k] == f.truth(TokenOf(k)))
      && (forall k :: k in cache ==> Agrees(f, k, cache[k]))
    }

    method CacheMetadata(key: string, md: Metadata)
      modifies this`cache
      ensures cache == old(cache)[key := md]
    {
      cache := cache[key := md];
    }

    /**
      Cache, then row, then fetch and save. A failure caches nothing, a hit touches nothing, and a
      safe address keeps each cached entry backed by its row.
      */
    method GetTokenMetadata(f: Fetcher, address: string, loadFails: bool, fetchFails: bool, fate: SaveFate)
      returns (r: Option<Metadata>)
      requires f.Valid() && Consistent(f)
      modifies this
      ensures Consistent(f)
      ensures var key, fetched := Lower(address), IsHexAddress(address) && !fetchFails;
        && (r.Some? <==> key in old(cache) || (!loadFails && (key in old(table) || (fetched && fate.Saved?))))
        && (r.Some? ==> Agrees(f, address, r.value))
        && (r.Some? ==> r.value.address == if key in old(cache) then old(cache)[key].address
                                           else if key in old(table) then address else f.Spell(address))
        && cache == (if r.Some? then old(cache)[key := r.value] else old(cache))
        && table == if key in old(cache) || key in old(table) || loadFails || !fetched || fate.LostBefore?
                    then old(table) else old(table)["0x" + TokenOf(address) := f.truth(TokenOf(address))]
      ensures old(cache.Keys <= table.Keys && Safe(table, address)) ==> cache.Keys <= table.Keys
    {
      TokenOfLower(address);
      SpellingNamesTheToken(f, address);
      TokenOfLower(f.Spell(address));
      var key := Lower(address);
      if key in cache {
        assert cache == cache[key := cache[key]];
        return Some(cache[key]);
      }
      if loadFails {
        return None;
      }
      var loaded := LoadRow(table, address);
      if loaded.Some? {
        CacheMetadata(key, loaded.value);
        return loaded;
      }
      if !IsHexAddress(address) || fetchFails {
        return None;
      }
      PrefixKeepsKey(f, address);
      var md := f.Fetched(address);
      if !fate.LostBefore? {
        table := SaveRow(table, md);
      }
      if !fate.Saved? {
        return None;
      }
      CacheMetadata(key, md);
      return Some(md);
    }
  }
}
