/** The contact store of the Weixin runtime: two maps over shared objects, saved and loaded again. */
module Contacts {
  import opened GoTypes

  /** The fields of a contact, as they stand in the store file. */
  datatype Contact = Contact(rawId: string, id: int, nickname: string, lastSeen: int, token: string)

  /** mapWeixinID over the 64-bit hash of the raw ID. */
  function MapId(hash: string -> U64, raw: string): (r: int)
    ensures 0 < r < TWO_63
  {
    var id := hash(raw) % TWO_63;
    if id == 0 then 1 else id
  }

  /** Both maps as values. */
  datatype Book = Book(raw: map<string, Contact>, ids: map<int, Contact>)

  /** A contact goes into both maps, in place of what stands there. */
  function Put(b: Book, c: Contact): Book {
    Book(b.raw[c.rawId := c], b.ids[c.id := c])
  }

  /** A contact that is observed again. */
  function Seen(c: Contact, token: string, now: int): Contact {
    c.(lastSeen := now, token := if token != "" then token else c.token)
  }

  /** A known contact changes in both maps if both have it, a new one is put. */
  function Upserted(hash: string -> U64, b: Book, raw: string, token: string, now: int): Book {
    if raw in b.raw then
      var c := b.raw[raw];
      var c' := Seen(c, token, now);
      Book(b.raw[raw := c'], if c.id in b.ids && b.ids[c.id].rawId == raw then b.ids[c.id := c'] else b.ids)
    else Put(b, Contact(raw, MapId(hash, raw), raw, now, token))
  }

  /** Contacts without a raw ID or an ID are passed over when a file is loaded. */
  predicate Storable(c: Contact) {
    c.rawId != "" && c.id != 0
  }

  function Added(b: Book, c: Contact): Book {
    if Storable(c) then Put(b, c) else b
  }

  function Loaded(file: seq<Contact>): Book {
    if file == [] then Book(map[], map[]) else Added(Loaded(file[..|file| - 1]), file[|file| - 1])
  }

  /** Every contact stands under its own keys, its ID is the hash, and every ID leads to a contact of the raw map. */
  ghost predicate Consistent(hash: string -> U64, b: Book) {
    && (forall r :: r in b.raw ==> b.raw[r].rawId == r && b.raw[r].id == MapId(hash, r) && MapId(hash, r) in b.ids)
    && (forall i :: i in b.ids ==>
          b.ids[i].rawId in b.raw && MapId(hash, b.ids[i].rawId) == i && b.ids[i] == b.raw[b.ids[i].rawId])
  }

  /** Two raw IDs meet in one ID exactly if their hashes agree in the low 63 bits, 0 and 1 being the same. */
  lemma {:induction false} MapIdMeets(hash: string -> U64, r: string, q: string)
    ensures
      var a, b := hash(r) % 0x8000_0000_0000_0000, hash(q) % 0x8000_0000_0000_0000;
      MapId(hash, r) == MapId(hash, q) <==> a == b || (a <= 1 && b <= 1)
    ensures 0 < hash(r) < 0x8000_0000_0000_0000 ==> MapId(hash, r) == hash(r)
  {
  }

  // Loading.

  /** Entry k of the file counts, and no later one that counts has the same raw ID. */
  ghost predicate LastWithRaw(file: seq<Contact>, k: nat) {
    && k < |file| && file[k].rawId != "" && file[k].id != 0
    && forall j :: k < j < |file| && file[j].rawId != "" && file[j].id != 0 ==> file[j].rawId != file[k].rawId
  }

  ghost predicate LastWithId(file: seq<Contact>, k: nat) {
    && k < |file| && file[k].rawId != "" && file[k].id != 0
    && forall j :: k < j < |file| && file[j].rawId != "" && file[j].id != 0 ==> file[j].id != file[k].id
  }

  /** Each map holds, for each of its keys, the last entry of the file with that key. */
  lemma {:induction false} LoadedExactly(file: seq<Contact>, c: Contact)
    ensures
      var b := Loaded(file);
      && (c.rawId in b.raw && b.raw[c.rawId] == c <==> exists k: nat :: LastWithRaw(file, k) && file[k] == c)
      && (c.id in b.ids && b.ids[c.id] == c <==> exists k: nat :: LastWithId(file, k) && file[k] == c)
  {
    if file != [] {
      var n := |file| - 1;
      LoadedExactly(file[..n], c);
      LastRawStep(file, c);
      LastIdStep(file, c);
      hide LastWithRaw, LastWithId;
    }
  }

  lemma {:induction false} LastRawStep(file: seq<Contact>, c: Contact)
    requires file != []
    ensures
      var front, last := file[..|file| - 1], file[|file| - 1];
      (exists k: nat :: LastWithRaw(file, k) && file[k] == c) <==>
      if last.rawId != "" && last.id != 0 && last.rawId == c.rawId then last == c
      else exists k: nat :: LastWithRaw(front, k) && front[k] == c
  {
    var n := |file| - 1;
    var front, last := file[..n], file[n];
    forall k: nat | k < n
      ensures LastWithRaw(file, k) <==>
              LastWithRaw(front, k) && (last.rawId != "" && last.id != 0 ==> last.rawId != front[k].rawId)
    {
      assert forall j :: k < j < n ==> file[j] == front[j];
    }
    assert LastWithRaw(file, n) <==> last.rawId != "" && last.id != 0;
  }

  lemma {:induction false} LastIdStep(file: seq<Contact>, c: Contact)
    requires file != []
    ensures
      var front, last := file[..|file| - 1], file[|file| - 1];
      (exists k: nat :: LastWithId(file, k) && file[k] == c) <==>
      if last.rawId != "" && last.id != 0 && last.id == c.id then last == c
      else exists k: nat :: LastWithId(front, k) && front[k] == c
  {
    var n := |file| - 1;
    var front, last := file[..n], file[n];
    forall k: nat | k < n
      ensures LastWithId(file, k) <==>
              LastWithId(front, k) && (last.rawId != "" && last.id != 0 ==> last.id != front[k].id)
    {
      assert forall j :: k < j < n ==> file[j] == front[j];
    }
    assert LastWithId(file, n) <==> last.rawId != "" && last.id != 0;
  }

  // Saving.

  lemma {:induction false} EmptyOrNot(s: set<int>)
    ensures s == {} || exists x :: x in s
  {
    if forall x :: x !in s {
      assert s == {};
    }
  }

  lemma {:induction false} HasLeast(s: set<int>)
    requires s != {}
    ensures exists m :: m in s && forall x :: x in s ==> m <= x
    decreases |s|
  {
    EmptyOrNot(s);
    var x :| x in s;
    if s != {x} {
      var t := s - {x};
      assert s == t + {x};
      HasLeast(t);
      var m :| m in t && forall y :: y in t ==> m <= y;
      var least := if m < x then m else x;
      assert least in s && forall y :: y in s ==> least <= y;
    }
  }

  ghost function Least(s: set<int>): (m: int)
    requires s != {}
    ensures m in s && forall x :: x in s ==> m <= x
  {
    HasLeast(s);
    var m :| m in s && forall x :: x in s ==> m <= x;
    m
  }

  /** The elements of s in increasing order. */
  ghost function Ascending(s: set<int>): seq<int>
    decreases s
  {
    if s == {} then [] else [Least(s)] + Ascending(s - {Least(s)})
  }

  lemma {:induction false} AscendingFacts(s: set<int>)
    ensures forall x :: x in Ascending(s) <==> x in s
    ensures forall k :: 0 <= k < |Ascending(s)| ==> Ascending(s)[k] in s
    ensures forall i, j :: 0 <= i < j < |Ascending(s)| ==> Ascending(s)[i] < Ascending(s)[j]
    decreases s
  {
    if s != {} {
      var m := Least(s);
      var rest := Ascending(s - {m});
      AscendingFacts(s - {m});
      assert Ascending(s) == [m] + rest;
      hide Ascending;
      forall i, j | 0 <= i < j < |[m] + rest| ensures ([m] + rest)[i] < ([m] + rest)[j] {
        assert rest[j - 1] in s - {m};
      }
    }
  }

  /** The contacts found under the given IDs. */
  function Picked(b: Book, ids: seq<int>): seq<Contact>
    requires forall k :: 0 <= k < |ids| ==> ids[k] in b.ids
  {
    seq(|ids|, k requires 0 <= k < |ids| => b.ids[ids[k]])
  }

  /** The file: the contacts of the ID map, by increasing ID. */
  ghost function Saved(b: Book): seq<Contact> {
    AscendingFacts(b.ids.Keys);
    Picked(b, Ascending(b.ids.Keys))
  }

  /** The file holds exactly the contacts of the ID map, by increasing ID. */
  lemma {:induction false} SavedInOrder(b: Book)
    requires forall i :: i in b.ids ==> b.ids[i].id == i
    ensures forall c: Contact :: c in Saved(b) <==> c.id in b.ids && b.ids[c.id] == c
    ensures forall i, j :: 0 <= i < j < |Saved(b)| ==> Saved(b)[i].id < Saved(b)[j].id
  {
    var ids := Ascending(b.ids.Keys);
    AscendingFacts(b.ids.Keys);
    hide Ascending;
    assert |Saved(b)| == |ids| && forall k :: 0 <= k < |ids| ==> ids[k] in b.ids && Saved(b)[k] == b.ids[ids[k]];
    forall c: Contact | c.id in b.ids && b.ids[c.id] == c ensures c in Saved(b) {
      var k :| 0 <= k < |ids| && ids[k] == c.id;
      assert Saved(b)[k] == c;
    }
  }

  /** Every contact in the file has the ID that its raw ID hashes to. */
  ghost predicate Hashed(hash: string -> U64, file: seq<Contact>) {
    forall k :: 0 <= k < |file| ==> file[k].id == MapId(hash, file[k].rawId)
  }

  /** A saved file says of each contact the ID that the next start expects. */
  lemma {:induction false} SavedIsHashed(hash: string -> U64, b: Book)
    requires Consistent(hash, b)
    ensures Hashed(hash, Saved(b))
  {
    hide MapId, Ascending;
    AscendingFacts(b.ids.Keys);
    var ids := Ascending(b.ids.Keys);
    forall k | 0 <= k < |Saved(b)|
      ensures Saved(b)[k].id == MapId(hash, Saved(b)[k].rawId)
    {
      assert ids[k] in b.ids.Keys && Saved(b)[k] == b.ids[ids[k]];
    }
  }

  lemma {:induction false} UpsertKeepsConsistent(hash: string -> U64, b: Book, raw: string, token: string, now: int)
    requires Consistent(hash, b)
    ensures Consistent(hash, Upserted(hash, b, raw, token, now))
  {
    hide MapId;
  }

  // Reloading.

  /** What loading makes of some of the IDs of a book. */
  ghost function Kept(hash: string -> U64, b: Book, ids: seq<int>): Book
    requires Consistent(hash, b)
  {
    Book(map r | r in b.raw && r != "" && MapId(hash, r) in ids && b.ids[MapId(hash, r)].rawId == r :: b.raw[r],
         map i | i in b.ids && i in ids && b.ids[i].rawId != "" :: b.ids[i])
  }

  lemma {:induction false} LoadPicked(hash: string -> U64, b: Book, ids: seq<int>)
    requires Consistent(hash, b)
    requires forall k :: 0 <= k < |ids| ==> ids[k] in b.ids
    requires forall i, j :: 0 <= i < j < |ids| ==> ids[i] < ids[j]
    ensures Loaded(Picked(b, ids)) == Kept(hash, b, ids)
    decreases |ids|
  {
    hide MapId;
    if ids != [] {
      var n := |ids| - 1;
      var front, i := ids[..n], ids[n];
      LoadPicked(hash, b, front);
      assert Picked(b, ids)[..n] == Picked(b, front);
      assert ids == front + [i];
      KeptOneMore(hash, b, front, i);
    }
  }

  lemma {:induction false} KeptOneMore(hash: string -> U64, b: Book, ids: seq<int>, i: int)
    requires Consistent(hash, b) && i in b.ids
    ensures Kept(hash, b, ids + [i]) == Added(Kept(hash, b, ids), b.ids[i])
  {
    hide MapId;
    var c := b.ids[i];
    var r := c.rawId;
    var k, k' := Kept(hash, b, ids), Kept(hash, b, ids + [i]);
    assert c.id == i && i != 0 && c.rawId == r;
    if r != "" {
      assert k'.raw == k.raw[r := c];
      assert k'.ids == k.ids[i := c];
    } else {
      assert k'.raw == k.raw;
      assert k'.ids == k.ids;
    }
  }

  /** Different raw IDs have different IDs. */
  ghost predicate HashApart(hash: string -> U64, raws: set<string>) {
    forall r, q :: r in raws && q in raws && r != q ==> MapId(hash, r) != MapId(hash, q)
  }

  lemma {:induction false} ReloadKeeps(hash: string -> U64, b: Book)
    requires Consistent(hash, b)
    ensures Loaded(Saved(b)) == Kept(hash, b, Ascending(b.ids.Keys))
  {
    AscendingFacts(b.ids.Keys);
    LoadPicked(hash, b, Ascending(b.ids.Keys));
  }

  lemma {:induction false} LoadPickedIds(b: Book, ids: seq<int>)
    requires forall k :: 0 <= k < |ids| ==> ids[k] in b.ids && b.ids[ids[k]].id == ids[k]
    ensures Loaded(Picked(b, ids)).ids == map i | i in ids && Storable(b.ids[i]) :: b.ids[i]
    decreases |ids|
  {
    if ids != [] {
      var n := |ids| - 1;
      LoadPickedIds(b, ids[..n]);
      assert Picked(b, ids)[..n] == Picked(b, ids[..n]);
      assert ids == ids[..n] + [ids[n]];
    }
  }

  /** Whatever is stored, reloading reproduces the ID map exactly if no contact in it is passed over. */
  lemma {:induction false} ReloadKeepsIds(b: Book)
    requires forall i :: i in b.ids ==> b.ids[i].id == i
    ensures Loaded(Saved(b)).ids == b.ids <==> forall i :: i in b.ids ==> Storable(b.ids[i])
  {
    AscendingFacts(b.ids.Keys);
    LoadPickedIds(b, Ascending(b.ids.Keys));
    var l := Loaded(Saved(b));
    if i :| i in b.ids && !Storable(b.ids[i]) {
      assert i !in l.ids;
    } else {
      assert l.ids == b.ids;
    }
  }

  lemma {:induction false} ReloadWhole(hash: string -> U64, b: Book, r: string)
    requires Consistent(hash, b) && r in b.raw && r != "" && HashApart(hash, b.raw.Keys)
    ensures var l := Kept(hash, b, Ascending(b.ids.Keys));
            r in l.raw && l.raw[r] == b.raw[r]
  {
    AscendingFacts(b.ids.Keys);
    hide MapId;
    hide Ascending;
    assert b.ids[MapId(hash, r)].rawId == r;
  }

  lemma {:induction false} ReloadLoss(hash: string -> U64, b: Book, r: string, q: string)
    requires Consistent(hash, b) && r in b.raw && q in b.raw && r != q && MapId(hash, r) == MapId(hash, q)
    ensures var l := Kept(hash, b, Ascending(b.ids.Keys));
            r !in l.raw || q !in l.raw
  {
    hide MapId;
    hide Ascending;
  }

  lemma {:induction false} ReloadsWhole(hash: string -> U64, b: Book)
    requires Consistent(hash, b) && "" !in b.raw && HashApart(hash, b.raw.Keys)
    ensures Kept(hash, b, Ascending(b.ids.Keys)) == b
  {
    AscendingFacts(b.ids.Keys);
    hide MapId, Ascending, HashApart;
    var l := Kept(hash, b, Ascending(b.ids.Keys));
    forall r | r in b.raw ensures r in l.raw && l.raw[r] == b.raw[r] {
      ReloadWhole(hash, b, r);
    }
    assert l.raw == b.raw;
    forall i | i in b.ids ensures i in l.ids && l.ids[i] == b.ids[i] {
      assert i in b.ids.Keys && b.ids[i].rawId in b.raw;
    }
    assert l.ids == b.ids;
  }

  /** Saving and reloading loses nothing exactly if no raw ID is empty and all of them hash apart. */
  lemma {:induction false} ReloadExactly(hash: string -> U64, b: Book)
    requires Consistent(hash, b)
    ensures Loaded(Saved(b)) == b <==> "" !in b.raw && HashApart(hash, b.raw.Keys)
  {
    hide *;
    ReloadKeeps(hash, b);
    if "" !in b.raw && HashApart(hash, b.raw.Keys) {
      ReloadsWhole(hash, b);
    }
    if Loaded(Saved(b)) == b {
      EmptyLost(hash, b);
      ApartIfWhole(hash, b);
    }
  }

  lemma {:induction false} ApartIfWhole(hash: string -> U64, b: Book)
    requires Consistent(hash, b) && Kept(hash, b, Ascending(b.ids.Keys)) == b
    ensures HashApart(hash, b.raw.Keys)
  {
    hide MapId, Ascending, Kept, Consistent;
    forall r, q | r in b.raw && q in b.raw && r != q ensures MapId(hash, r) != MapId(hash, q) {
      if MapId(hash, r) == MapId(hash, q) {
        ReloadLoss(hash, b, r, q);
      }
    }
  }

  lemma {:induction false} EmptyLost(hash: string -> U64, b: Book)
    requires Consistent(hash, b)
    ensures "" !in Kept(hash, b, Ascending(b.ids.Keys)).raw
  {
    hide MapId;
    hide Ascending;
  }

  // Runs.

  datatype Action = Observe(raw: string, token: string, now: int) | Restart

  /** The runtime and its store file. */
  datatype World = World(book: Book, file: Option<seq<Contact>>)

  ghost function Step(hash: string -> U64, w: World, a: Action): World {
    match a
    case Observe(raw, token, now) =>
      var b := Upserted(hash, w.book, raw, token, now);
      World(b, Some(Saved(b)))
    case Restart =>
      World(if w.file.Some? then Loaded(w.file.value) else Book(map[], map[]), w.file)
  }

  /** The file, if any, was saved from a consistent book. */
  ghost predicate FromHere(hash: string -> U64, w: World) {
    && Consistent(hash, w.book)
    && (w.file.Some? ==> exists b :: Consistent(hash, b) && w.file.value == Saved(b))
  }

  lemma {:induction false} PutKeepsConsistent(hash: string -> U64, b: Book, c: Contact)
    requires Consistent(hash, b) && c.id == MapId(hash, c.rawId)
    ensures Consistent(hash, Put(b, c))
  {
    hide MapId;
  }

  lemma {:induction false} HashedIsConsistent(hash: string -> U64, file: seq<Contact>)
    requires Hashed(hash, file)
    ensures Consistent(hash, Loaded(file))
  {
    hide MapId;
    if file != [] {
      HashedIsConsistent(hash, file[..|file| - 1]);
      PutKeepsConsistent(hash, Loaded(file[..|file| - 1]), file[|file| - 1]);
    }
  }

  lemma {:induction false} StepFromHere(hash: string -> U64, w: World, a: Action)
    requires FromHere(hash, w)
    ensures FromHere(hash, Step(hash, w, a))
  {
    match a
    case Observe(raw, token, now) =>
      UpsertKeepsConsistent(hash, w.book, raw, token, now);
    case Restart =>
      if w.file.Some? {
        var b :| Consistent(hash, b) && w.file.value == Saved(b);
        SavedIsHashed(hash, b);
        HashedIsConsistent(hash, w.file.value);
      }
  }

  /** After any run from an empty store, whatever the hash does, the two maps agree on every ID. */
  ghost function Run(hash: string -> U64, run: seq<Action>): (w: World)
    ensures FromHere(hash, w)
  {
    if run == [] then World(Book(map[], map[]), None)
    else
      var w := Run(hash, run[..|run| - 1]);
      StepFromHere(hash, w, run[|run| - 1]);
      Step(hash, w, run[|run| - 1])
  }

  function Observed(run: seq<Action>): set<string> {
    if run == [] then {}
    else
      var a := run[|run| - 1];
      Observed(run[..|run| - 1]) + if a.Observe? then {a.raw} else {}
  }

  /** The last token for `raw` that was not empty. */
  function LastToken(run: seq<Action>, raw: string): string {
    if run == [] then ""
    else
      var a := run[|run| - 1];
      if a.Observe? && a.raw == raw && a.token != "" then a.token else LastToken(run[..|run| - 1], raw)
  }

  function LastTime(run: seq<Action>, raw: string): int {
    if run == [] then 0
    else
      var a := run[|run| - 1];
      if a.Observe? && a.raw == raw then a.now else LastTime(run[..|run| - 1], raw)
  }

  /** The contacts as the observations alone determine them. */
  function History(hash: string -> U64, run: seq<Action>): map<string, Contact> {
    map r | r in Observed(run) :: Contact(r, MapId(hash, r), r, LastTime(run, r), LastToken(run, r))
  }

  /** Both maps hold the same contacts. */
  ghost predicate SameContacts(hash: string -> U64, b: Book) {
    forall r :: r in b.raw ==> MapId(hash, r) in b.ids && b.ids[MapId(hash, r)] == b.raw[r]
  }

  /** Contacts are lost from the ID map exactly if two raw IDs meet in one ID. */
  lemma {:induction false} SameContactsExactly(hash: string -> U64, b: Book)
    requires Consistent(hash, b)
    ensures SameContacts(hash, b) <==> HashApart(hash, b.raw.Keys)
  {
    hide MapId;
  }

  /** The runtime and its file hold what the observations determine, and nothing else. */
  ghost predicate Follows(hash: string -> U64, run: seq<Action>, w: World)
    requires Consistent(hash, w.book)
  {
    && w.book.raw == History(hash, run)
    && SameContacts(hash, w.book)
    && (if w.file.Some? then Loaded(w.file.value) == w.book else w.book == Book(map[], map[]))
  }

  /** Restarts go unnoticed and nothing is mixed up exactly if no raw ID seen is empty and all of them hash apart. */
  lemma {:induction false} RunFollowsHistory(hash: string -> U64, run: seq<Action>)
    ensures Follows(hash, run, Run(hash, run)) <==> "" !in Observed(run) && HashApart(hash, Observed(run))
  {
    hide Follows, Consistent, HashApart, Observed;
    if Follows(hash, run, Run(hash, run)) {
      FollowsNeeds(hash, run, Run(hash, run));
    }
    if "" !in Observed(run) && HashApart(hash, Observed(run)) {
      FollowsIfApart(hash, run);
    }
  }

  lemma {:induction false} FollowsNeeds(hash: string -> U64, run: seq<Action>, w: World)
    requires Consistent(hash, w.book) && Follows(hash, run, w)
    ensures "" !in Observed(run) && HashApart(hash, Observed(run))
  {
    hide MapId, Consistent, SameContacts, Loaded, HashApart;
    SameContactsExactly(hash, w.book);
    assert w.book.raw.Keys == Observed(run);
    if w.file.Some? {
      EmptyNotLoaded(w.file.value);
    }
  }

  lemma {:induction false} EmptyNotLoaded(file: seq<Contact>)
    ensures "" !in Loaded(file).raw
  {
    if file != [] {
      EmptyNotLoaded(file[..|file| - 1]);
    }
  }

  lemma {:induction false} FollowsIfApart(hash: string -> U64, run: seq<Action>)
    requires "" !in Observed(run) && HashApart(hash, Observed(run))
    ensures Follows(hash, run, Run(hash, run))
  {
    hide MapId, HashApart, Follows, Consistent;
    if run == [] {
      FollowsNothing(hash, Run(hash, run));
    } else {
      var front, a := run[..|run| - 1], run[|run| - 1];
      assert run == front + [a];
      ApartBefore(hash, front, a);
      FollowsIfApart(hash, front);
      match a
      case Restart => RestartFollows(hash, front, Run(hash, front));
      case Observe(raw, token, now) => ObserveFollows(hash, front, a, Run(hash, front));
    }
  }

  lemma {:induction false} FollowsNothing(hash: string -> U64, w: World)
    requires w == World(Book(map[], map[]), None)
    ensures Consistent(hash, w.book) && Follows(hash, [], w)
  {
    assert History(hash, []) == map[];
  }

  lemma {:induction false} ApartBefore(hash: string -> U64, front: seq<Action>, a: Action)
    requires "" !in Observed(front + [a]) && HashApart(hash, Observed(front + [a]))
    ensures "" !in Observed(front) && HashApart(hash, Observed(front))
  {
    hide MapId;
    assert (front + [a])[..|front|] == front;
  }

  lemma {:induction false} RestartFollows(hash: string -> U64, front: seq<Action>, w: World)
    requires FromHere(hash, w) && Follows(hash, front, w)
    ensures FromHere(hash, Step(hash, w, Restart)) && Follows(hash, front + [Restart], Step(hash, w, Restart))
  {
    hide MapId, Consistent, History, Loaded, SameContacts;
    StepFromHere(hash, w, Restart);
    RestartHistory(hash, front + [Restart]);
    assert (front + [Restart])[..|front|] == front;
  }

  lemma {:induction false} ObserveFollows(hash: string -> U64, front: seq<Action>, a: Action, w: World)
    requires a.Observe? && "" !in Observed(front + [a]) && HashApart(hash, Observed(front + [a]))
    requires FromHere(hash, w) && Follows(hash, front, w)
    ensures FromHere(hash, Step(hash, w, a)) && Follows(hash, front + [a], Step(hash, w, a))
  {
    HistoryStep(hash, front, a, w.book);
    hide MapId, Consistent, History, Observed, Loaded, SameContacts, Saved, Upserted, HashApart, FromHere;
    StepFromHere(hash, w, a);
    StillConsistent(hash, Step(hash, w, a));
    UpsertKeepsConsistent(hash, w.book, a.raw, a.token, a.now);
    var b' := Upserted(hash, w.book, a.raw, a.token, a.now);
    SameContactsExactly(hash, b');
    ReloadExactly(hash, b');
  }

  lemma {:induction false} StillConsistent(hash: string -> U64, w: World)
    requires FromHere(hash, w)
    ensures Consistent(hash, w.book)
  {
    hide Consistent;
  }

  lemma {:induction false} RestartHistory(hash: string -> U64, run: seq<Action>)
    requires run != [] && run[|run| - 1].Restart?
    ensures History(hash, run) == History(hash, run[..|run| - 1])
  {
    assert Observed(run) == Observed(run[..|run| - 1]);
  }

  lemma {:induction false} HistoryStep(hash: string -> U64, front: seq<Action>, a: Action, b: Book)
    requires a.Observe? && b.raw == History(hash, front)
    ensures
      var run := front + [a];
      && Upserted(hash, b, a.raw, a.token, a.now).raw == History(hash, run)
      && History(hash, run).Keys == Observed(run)
  {
    hide MapId;
    var run := front + [a];
    assert run[..|run| - 1] == front;
    assert Observed(run) == Observed(front) + {a.raw};
    if a.raw !in b.raw {
      NotObserved(front, a.raw);
    }
    assert Upserted(hash, b, a.raw, a.token, a.now).raw == History(hash, run);
  }

  lemma {:induction false} NotObserved(run: seq<Action>, raw: string)
    requires raw !in Observed(run)
    ensures LastToken(run, raw) == ""
  {
    if run != [] {
      NotObserved(run[..|run| - 1], raw);
    }
  }
}
