/** The Weixin runtime: contact objects shared by two maps, and the store file. */
module ContactStore {
  import opened GoTypes
  import opened Contacts

  class ContactObject {
    const rawId: string
    const id: int
    const nickname: string
    var lastSeen: int
    var lastContextToken: string

    constructor (c: Contact)
      ensures rawId == c.rawId && id == c.id && nickname == c.nickname
      ensures lastSeen == c.lastSeen && lastContextToken == c.token
    {
      rawId := c.rawId;
      id := c.id;
      nickname := c.nickname;
      lastSeen := c.lastSeen;
      lastContextToken := c.token;
    }

    function Fields(): Contact
      reads this
    {
      Contact(rawId, id, nickname, lastSeen, lastContextToken)
    }

    method MarkSeen(contextToken: string, now: int)
      modifies this
      ensures Fields() == Seen(old(Fields()), contextToken, now)
    {
      lastSeen := now;
      if contextToken != "" {
        lastContextToken := contextToken;
      }
    }
  }

  /** Each entry of the ID map is under its own ID, and is the very object the raw map holds for its raw ID. */
  ghost predicate Shared(contacts: map<int, ContactObject>, contactsRaw: map<string, ContactObject>) {
    && (forall r :: r in contactsRaw ==> contactsRaw[r].rawId == r)
    && (forall i :: i in contacts ==>
          && contacts[i].id == i && contacts[i].rawId in contactsRaw
          && contactsRaw[contacts[i].rawId] == contacts[i])
  }

  /**
   * What holds with every store file: entries stand under their own keys, and an object of the ID map
   * is the one of the raw map if the latter has the same ID.
   */
  ghost predicate Linked(contacts: map<int, ContactObject>, contactsRaw: map<string, ContactObject>) {
    && (forall r :: r in contactsRaw ==> contactsRaw[r].rawId == r)
    && (forall i :: i in contacts ==>
          && contacts[i].id == i && contacts[i].rawId in contactsRaw
          && (contactsRaw[contacts[i].rawId].id == i ==> contactsRaw[contacts[i].rawId] == contacts[i]))
  }

  /** The objects hold what the book says. */
  ghost predicate Mirror(contacts: map<int, ContactObject>, contactsRaw: map<string, ContactObject>, b: Book)
    reads contacts.Values, contactsRaw.Values
  {
    && (forall r :: r in contactsRaw <==> r in b.raw)
    && (forall r :: r in contactsRaw ==> contactsRaw[r].Fields() == b.raw[r])
    && (forall i :: i in contacts <==> i in b.ids)
    && (forall i :: i in contacts ==> contacts[i].Fields() == b.ids[i])
  }

  /** The contact that the raw map has for an entry of the ID map has the same ID. */
  predicate UnderOwnIds(b: Book) {
    forall i <- b.ids :: b.ids[i].rawId in b.raw && b.raw[b.ids[i].rawId].id == i
  }

  /** The two maps share their objects exactly if every contact of the ID map has the same ID in the raw map. */
  lemma {:induction false} SharedExactly(
    contacts: map<int, ContactObject>, contactsRaw: map<string, ContactObject>, b: Book)
    requires Linked(contacts, contactsRaw) && Mirror(contacts, contactsRaw, b)
    ensures Shared(contacts, contactsRaw) <==> UnderOwnIds(b)
  {
    if Shared(contacts, contactsRaw) {
      forall i | i in b.ids ensures b.ids[i].rawId in b.raw && b.raw[b.ids[i].rawId].id == i {
        assert i in contacts && contacts[i].rawId == b.ids[i].rawId;
      }
    }
    if UnderOwnIds(b) {
      forall i | i in contacts ensures contactsRaw[contacts[i].rawId] == contacts[i] {
        assert i in b.ids && contacts[i].rawId == b.ids[i].rawId;
        assert contactsRaw[contacts[i].rawId].Fields() == b.raw[b.ids[i].rawId];
      }
    }
  }

  /** A file saved from a book in which all IDs are hashes makes the maps share every object. */
  lemma {:induction false} SavedIsShared(hash: string -> U64, b: Book)
    requires Consistent(hash, b)
    ensures UnderOwnIds(Loaded(Saved(b)))
  {
    SavedIsHashed(hash, b);
    HashedIsConsistent(hash, Saved(b));
    hide MapId, Saved, Hashed, Loaded;
  }

  /** A file that gives one raw ID two IDs: the first one leads to an object that the raw map has lost. */
  lemma {:induction false} RenumberedIsSplit(c: Contact)
    requires c.rawId != "" && c.id == 1
    ensures !UnderOwnIds(Loaded([c, c.(id := 2)]))
  {
    var file := [c, c.(id := 2)];
    assert file[..1] == [c] && [c][..0] == [];
    assert Loaded(file) == Added(Added(Loaded([]), c), c.(id := 2));
    assert 1 in Loaded(file).ids;
  }

  lemma {:induction false} PutLinked(
    contacts: map<int, ContactObject>, contactsRaw: map<string, ContactObject>, o: ContactObject)
    requires Linked(contacts, contactsRaw)
    ensures Linked(contacts[o.id := o], contactsRaw[o.rawId := o])
  {
  }

  lemma {:induction false} PutMirror(
    contacts: map<int, ContactObject>, contactsRaw: map<string, ContactObject>, b: Book, o: ContactObject)
    requires Mirror(contacts, contactsRaw, b)
    ensures Mirror(contacts[o.id := o], contactsRaw[o.rawId := o], Put(b, o.Fields()))
  {
  }

  lemma {:induction false} NothingLoaded(contacts: map<int, ContactObject>, contactsRaw: map<string, ContactObject>)
    requires contacts == map[] && contactsRaw == map[]
    ensures Linked(contacts, contactsRaw) && Mirror(contacts, contactsRaw, Loaded([]))
  {
  }

  /** Where else the object of a raw ID is found. */
  lemma {:induction false} WhereFound(
    contacts: map<int, ContactObject>, contactsRaw: map<string, ContactObject>, b: Book, r: string)
    requires Linked(contacts, contactsRaw) && Mirror(contacts, contactsRaw, b) && r in contactsRaw
    ensures r in b.raw && contactsRaw[r].Fields() == b.raw[r]
    ensures forall q :: q in contactsRaw ==> (contactsRaw[q] == contactsRaw[r] <==> q == r)
    ensures forall i :: i in contacts ==>
              (contacts[i] == contactsRaw[r] <==> i == b.raw[r].id && i in b.ids && b.ids[i].rawId == r)
  {
    forall i | i in contacts
      ensures contacts[i] == contactsRaw[r] <==> i == b.raw[r].id && i in b.ids && b.ids[i].rawId == r
    {
      assert contacts[i].Fields() == b.ids[i];
    }
  }

  /** The objects after a change of the contact r. */
  lemma {:induction false} MirrorTouched(
    contacts: map<int, ContactObject>, contactsRaw: map<string, ContactObject>, b: Book,
    hash: string -> U64, r: string, token: string, now: int)
    requires r in b.raw && (forall q :: q in contactsRaw <==> q in b.raw) && (forall i :: i in contacts <==> i in b.ids)
    requires forall q :: q in contactsRaw ==>
               contactsRaw[q].Fields() == if q == r then Seen(b.raw[r], token, now) else b.raw[q]
    requires forall i :: i in contacts ==>
               contacts[i].Fields()
               == if i == b.raw[r].id && b.ids[i].rawId == r then Seen(b.raw[r], token, now) else b.ids[i]
    ensures Mirror(contacts, contactsRaw, Upserted(hash, b, r, token, now))
  {
    hide MapId, Seen;
  }

  class WeixinRuntime {
    const hash: string -> U64
    const storing: bool  // a contact store path is configured
    var contacts: map<int, ContactObject>
    var contactsRaw: map<string, ContactObject>
    var file: Option<seq<Contact>>
    ghost var book: Book

    ghost predicate Valid()
      reads this, contacts.Values, contactsRaw.Values
    {
      Linked(contacts, contactsRaw) && Mirror(contacts, contactsRaw, book)
    }

    /** What is loaded at the start. */
    function Entries(): seq<Contact>
      reads this
    {
      if storing && file.Some? then file.value else []
    }

    /** Starts with the contacts in the file, whatever file that is. */
    constructor (hash: string -> U64, storing: bool, stored: Option<seq<Contact>>)
      ensures Valid() && this.hash == hash && this.storing == storing && file == stored
      ensures book == Loaded(Entries()) && (Shared(contacts, contactsRaw) <==> UnderOwnIds(book))
      ensures forall r :: r in contactsRaw ==> fresh(contactsRaw[r])
      ensures forall i :: i in contacts ==> fresh(contacts[i])
    {
      this.hash := hash;
      this.storing := storing;
      contacts := map[];
      contactsRaw := map[];
      file := stored;
      book := Book(map[], map[]);
      new;
      LoadContacts();
    }

    method LoadContacts()
      requires contacts == map[] && contactsRaw == map[]
      modifies this
      ensures Valid() && file == old(file)
      ensures book == Loaded(Entries()) && (Shared(contacts, contactsRaw) <==> UnderOwnIds(book))
      ensures forall r :: r in contactsRaw ==> fresh(contactsRaw[r])
      ensures forall i :: i in contacts ==> fresh(contacts[i])
    {
      book := Book(map[], map[]);
      var loaded := Entries();
      NothingLoaded(contacts, contactsRaw);
      for k := 0 to |loaded|
        invariant Valid() && file == old(file) && book == Loaded(loaded[..k])
        invariant forall r :: r in contactsRaw ==> fresh(contactsRaw[r])
        invariant forall i :: i in contacts ==> fresh(contacts[i])
      {
        hide *;
        LoadedStep(loaded, k);
        if loaded[k].rawId == "" || loaded[k].id == 0 {
          continue;
        }
        var cp := NewContact(loaded[k]);
        Enter(cp, loaded[k]);
      }
      assert loaded[..|loaded|] == loaded;
      SharedExactly(contacts, contactsRaw, book);
    }

    method NewContact(c: Contact) returns (o: ContactObject)
      requires Valid()
      ensures Valid() && fresh(o) && o.Fields() == c && o.id == c.id && o.rawId == c.rawId
    {
      hide Linked, Mirror;
      o := new ContactObject(c);
    }

    /** A contact goes into both maps, whatever it may replace there. */
    method Enter(o: ContactObject, ghost c: Contact)
      requires Valid() && o.Fields() == c && o.id == c.id && o.rawId == c.rawId
      modifies this`contacts, this`contactsRaw, this`book
      ensures Valid() && book == Put(old(book), c)
      ensures contacts == old(contacts)[c.id := o] && contactsRaw == old(contactsRaw)[c.rawId := o]
    {
      PutLinked(contacts, contactsRaw, o);
      PutMirror(contacts, contactsRaw, book, o);
      hide Linked, Mirror, Put;
      contacts := contacts[o.id := o];
      contactsRaw := contactsRaw[o.rawId := o];
      book := Put(book, c);
    }

    /** Collects the contacts of the ID map by increasing ID and writes the file. */
    method SaveContacts()
      requires Valid()
      modifies this`file
      ensures Valid() && file == if storing then Some(Saved(book)) else old(file)
    {
      hide Saved, Linked, Mirror;
      if !storing {
        return;
      }
      var out := SortedContacts();
      file := Some(out);
    }

    method SortedContacts() returns (out: seq<Contact>)
      requires Valid()
      ensures out == Saved(book)
    {
      hide *;
      FoundContacts();
      ghost var b := book;
      out := [];
      var rest := contacts.Keys;
      ghost var done: seq<int> := [];
      while rest != {}
        invariant rest <= b.ids.Keys && |out| == |done|
        invariant done + Ascending(rest) == Ascending(b.ids.Keys)
        invariant forall k :: 0 <= k < |done| ==> done[k] in b.ids && out[k] == b.ids[done[k]]
        decreases rest
      {
        HasLeast(rest);
        var i :| i in rest && forall j :: j in rest ==> i <= j;
        AscendingStep(rest, i);
        Regroup(done, i, Ascending(rest - {i}));
        var c := contacts[i].Fields();
        assert c == b.ids[i];
        out := out + [c];
        done := done + [i];
        rest := rest - {i};
      }
      AscendingEmpty();
      assert done + [] == done;
      SavedFrom(out, done);
    }

    lemma {:induction false} SavedFrom(out: seq<Contact>, done: seq<int>)
      requires done == Ascending(book.ids.Keys) && |out| == |done|
      requires forall k :: 0 <= k < |done| ==> done[k] in book.ids && out[k] == book.ids[done[k]]
      ensures out == Saved(book)
    {
      hide Ascending;
      assert out == Picked(book, done);
    }

    lemma {:induction false} FoundContacts()
      requires Valid()
      ensures book.ids.Keys == contacts.Keys
      ensures forall i :: i in contacts ==> i in book.ids && contacts[i].Fields() == book.ids[i]
    {
      assert forall i :: i in contacts.Keys <==> i in book.ids.Keys;
    }

    method UpsertContact(rawID: string, contextToken: string, now: int) returns (contact: ContactObject)
      requires Valid()
      modifies this, contactsRaw.Values
      ensures Valid() && book == Upserted(hash, old(book), rawID, contextToken, now)
      ensures file == if storing then Some(Saved(book)) else old(file)
      ensures rawID in contactsRaw && contact == contactsRaw[rawID]
      ensures rawID in old(contactsRaw) ==> contact == old(contactsRaw)[rawID]
    {
      KnownRaw(rawID);
      if rawID in contactsRaw {
        contact := Touch(rawID, contextToken, now);
      } else {
        var fields := Contact(rawID, MapId(hash, rawID), rawID, now, contextToken);
        contact := NewContact(fields);
        Enter(contact, fields);
      }
      hide Valid, Saved, MapId;
      SaveContacts();
    }

    lemma {:induction false} KnownRaw(r: string)
      requires Valid()
      ensures r in contactsRaw <==> r in book.raw
    {
    }

    lemma {:induction false} MirrorMeans()
      requires Mirror(contacts, contactsRaw, book)
      ensures forall r :: r in contactsRaw <==> r in book.raw
      ensures forall r :: r in contactsRaw ==> contactsRaw[r].Fields() == book.raw[r]
      ensures forall i :: i in contacts <==> i in book.ids
      ensures forall i :: i in contacts ==> contacts[i].Fields() == book.ids[i]
    {
    }

    /** A known contact is updated in place. */
    method Touch(rawID: string, contextToken: string, now: int) returns (contact: ContactObject)
      requires Valid() && rawID in contactsRaw
      modifies contactsRaw[rawID], this`book
      ensures Valid() && contact == contactsRaw[rawID]
      ensures book == Upserted(hash, old(book), rawID, contextToken, now)
    {
      WhereFound(contacts, contactsRaw, book, rawID);
      MirrorMeans();
      contact := contactsRaw[rawID];
      hide Mirror, Linked, Upserted, Seen, ContactObject.Fields;
      contact.MarkSeen(contextToken, now);
      MirrorTouched(contacts, contactsRaw, book, hash, rawID, contextToken, now);
      book := Upserted(hash, book, rawID, contextToken, now);
    }

    /** Finds the contact whose ID this is. */
    method ContactByID(id: int) returns (contact: ContactObject?)
      requires Valid()
      ensures contact != null <==> id in book.ids
      ensures contact != null ==> contact.id == id && contact.Fields() == book.ids[id]
    {
      contact := if id in contacts then contacts[id] else null;
    }
  }

  lemma {:induction false} Regroup(a: seq<int>, i: int, b: seq<int>)
    ensures a + ([i] + b) == a + [i] + b
  {
  }

  lemma {:induction false} AscendingStep(s: set<int>, m: int)
    requires m in s && forall x :: x in s ==> m <= x
    ensures Ascending(s) == [m] + Ascending(s - {m})
  {
    assert Least(s) == m;
  }

  lemma {:induction false} AscendingEmpty()
    ensures Ascending({}) == []
  {
  }

  lemma {:induction false} LoadedStep(file: seq<Contact>, k: nat)
    requires k < |file|
    ensures
      var b, c := Loaded(file[..k]), file[k];
      Loaded(file[..k + 1]) == if c.rawId == "" || c.id == 0 then b else Put(b, c)
  {
    assert file[..k + 1][..k] == file[..k];
  }
}
