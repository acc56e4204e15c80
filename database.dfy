/**
 * The sqlite store of database.py: the `groups` and `adverts` tables.
 *
 * A state of the two tables is the value `Tables`; every query and every write of the module
 * is a function on it (`now` stands for `time.time()`), and the class `Store` holds the tables
 * as fields that its methods update in place, each tied to the matching function.
 * `groupSeq` and `advertSeq` are sqlite's AUTOINCREMENT counters: the largest id handed out.
 */
module Database {
  import opened Common

  datatype Group = Group(id: nat, name: string, dgroupId: string, createdAt: int)

  datatype Advert = Advert(
    id: nat, fullname: string, permalink: string, groupId: nat,
    foundAt: int, updatedAt: int, postedAt: int)

  datatype Tables = Tables(groups: seq<Group>, adverts: seq<Advert>, groupSeq: nat, advertSeq: nat)

  /** Age, in seconds, beyond which `prune` deletes an advert. */
  const RetentionSeconds: int := 60 * 60 * 24

  function GroupKey(g: Group): nat { g.id }
  function GroupDiscordId(g: Group): string { g.dgroupId }
  function AdvertKey(a: Advert): nat { a.id }
  function AdvertFullname(a: Advert): string { a.fullname }

  /** Primary keys and the UNIQUE columns hold no duplicates, and every id was handed out. */
  ghost predicate WellFormed(t: Tables) {
    && Distinct(t.groups, GroupKey) && Distinct(t.groups, GroupDiscordId)
    && Distinct(t.adverts, AdvertKey) && Distinct(t.adverts, AdvertFullname)
    && (forall g :: g in t.groups ==> 0 < g.id <= t.groupSeq)
    && (forall a :: a in t.adverts ==> 0 < a.id <= t.advertSeq)
  }

  /** Every advert's `group_id` names a stored group (sqlite does not enforce it). */
  ghost predicate Linked(t: Tables) {
    forall a :: a in t.adverts ==> exists g :: g in t.groups && g.id == a.groupId
  }

  // ---------------------------------------------------------------- queries

  /** `fetch_group_by_dgroup_id` */
  function FetchGroupByDgroupId(t: Tables, dgroupId: string): (r: Option<Group>)
    ensures r.Some? ==> r.value in t.groups && r.value.dgroupId == dgroupId
    ensures r.None? <==> forall g :: g in t.groups ==> g.dgroupId != dgroupId
  {
    match FirstIndex(t.groups, (g: Group) => g.dgroupId == dgroupId)
    case None => None
    case Some(i) => Some(t.groups[i])
  }

  /** `fetch_group_by_id` */
  function FetchGroupById(t: Tables, id: nat): (r: Option<Group>)
    ensures r.Some? ==> r.value in t.groups && r.value.id == id
    ensures r.None? <==> forall g :: g in t.groups ==> g.id != id
  {
    match FirstIndex(t.groups, (g: Group) => g.id == id)
    case None => None
    case Some(i) => Some(t.groups[i])
  }

  /** `fetch_advert_by_fullname` */
  function FetchAdvertByFullname(t: Tables, fullname: string): (r: Option<Advert>)
    ensures r.Some? ==> r.value in t.adverts && r.value.fullname == fullname
    ensures r.None? <==> forall a :: a in t.adverts ==> a.fullname != fullname
  {
    match FirstIndex(t.adverts, (a: Advert) => a.fullname == fullname)
    case None => None
    case Some(i) => Some(t.adverts[i])
  }

  /** `fetch_adverts_by_group_id`: all and only the adverts of the group, in table order. */
  function FetchAdvertsByGroupId(t: Tables, groupId: nat): (r: seq<Advert>)
    ensures forall a :: a in r <==> a in t.adverts && a.groupId == groupId
  {
    Where(t.adverts, (a: Advert) => a.groupId == groupId)
  }

  /** With unique discord ids, the lookup by discord id finds the stored group. */
  lemma GroupByDgroupIdExact(t: Tables, g: Group)
    requires Distinct(t.groups, GroupDiscordId) && g in t.groups
    ensures FetchGroupByDgroupId(t, g.dgroupId) == Some(g)
  {
    var i :| 0 <= i < |t.groups| && t.groups[i] == g;
    var h := FetchGroupByDgroupId(t, g.dgroupId).value;
    var j :| 0 <= j < |t.groups| && t.groups[j] == h;
    assert GroupDiscordId(t.groups[i]) == GroupDiscordId(t.groups[j]);
  }

  /** With unique ids, the lookup by id finds the stored group. */
  lemma GroupByIdExact(t: Tables, g: Group)
    requires Distinct(t.groups, GroupKey) && g in t.groups
    ensures FetchGroupById(t, g.id) == Some(g)
  {
    var i :| 0 <= i < |t.groups| && t.groups[i] == g;
    var k := FetchGroupById(t, g.id).value;
    var m :| 0 <= m < |t.groups| && t.groups[m] == k;
    assert GroupKey(t.groups[i]) == GroupKey(t.groups[m]);
  }

  /** With unique fullnames, the lookup by fullname finds the stored advert. */
  lemma AdvertByFullnameExact(t: Tables, a: Advert)
    requires Distinct(t.adverts, AdvertFullname) && a in t.adverts
    ensures FetchAdvertByFullname(t, a.fullname) == Some(a)
  {
    var i :| 0 <= i < |t.adverts| && t.adverts[i] == a;
    var b := FetchAdvertByFullname(t, a.fullname).value;
    var j :| 0 <= j < |t.adverts| && t.adverts[j] == b;
    assert AdvertFullname(t.adverts[i]) == AdvertFullname(t.adverts[j]);
  }

  /** With unique keys a lookup finds THE row: any stored row with the key is the answer. */
  lemma LookupsAreExact(t: Tables, g: Group, a: Advert)
    requires WellFormed(t)
    ensures g in t.groups ==> FetchGroupByDgroupId(t, g.dgroupId) == Some(g)
    ensures g in t.groups ==> FetchGroupById(t, g.id) == Some(g)
    ensures a in t.adverts ==> FetchAdvertByFullname(t, a.fullname) == Some(a)
  {
    if g in t.groups {
      GroupByDgroupIdExact(t, g);
      GroupByIdExact(t, g);
    }
    if a in t.adverts {
      AdvertByFullnameExact(t, a);
    }
  }

  // ---------------------------------------------------------------- writes

  /** `save_group`: the INSERT, or a UNIQUE violation (false) that changes nothing. */
  function AddGroup(t: Tables, name: string, dgroupId: string, now: int): (Tables, bool) {
    if FetchGroupByDgroupId(t, dgroupId).Some? then (t, false)
    else
      (t.(groups := t.groups + [Group(t.groupSeq + 1, name, dgroupId, now)], groupSeq := t.groupSeq + 1), true)
  }

  /** `save_advert`: `found_at = updated_at = now`, or a UNIQUE violation (false). */
  function AddAdvert(t: Tables, fullname: string, permalink: string, groupId: nat, postedAt: int, now: int): (Tables, bool) {
    if FetchAdvertByFullname(t, fullname).Some? then (t, false)
    else
      var row := Advert(t.advertSeq + 1, fullname, permalink, groupId, now, now, postedAt);
      (t.(adverts := t.adverts + [row], advertSeq := t.advertSeq + 1), true)
  }

  /** The rows of `s` with `updated_at` of the rows with this id set to `now`. */
  function TouchRows(s: seq<Advert>, id: nat, now: int): (r: seq<Advert>)
    ensures |r| == |s|
    ensures forall i :: 0 <= i < |s| && s[i].id == id ==> r[i] == s[i].(updatedAt := now)
    ensures forall i :: 0 <= i < |s| && s[i].id != id ==> r[i] == s[i]
  {
    if s == [] then []
    else [if s[0].id == id then s[0].(updatedAt := now) else s[0]] + TouchRows(s[1..], id, now)
  }

  /** `touch_advert` */
  function TouchAdvert(t: Tables, id: nat, now: int): Tables {
    t.(adverts := TouchRows(t.adverts, id, now))
  }

  /** `delete_advert` */
  function DeleteAdvert(t: Tables, id: nat): Tables {
    t.(adverts := Where(t.adverts, (a: Advert) => a.id != id))
  }

  predicate IsReferenced(adverts: seq<Advert>, groupId: nat) {
    exists a :: a in adverts && a.groupId == groupId
  }

  /** `prune`: adverts posted before `now - 24h`, then groups no advert refers to. */
  function Prune(t: Tables, now: int): Tables {
    var cutoff := now - RetentionSeconds;
    var kept := Where(t.adverts, (a: Advert) => !(a.postedAt < cutoff));
    t.(adverts := kept, groups := Where(t.groups, (g: Group) => IsReferenced(kept, g.id)))
  }

  // ---------------------------------------------------------------- properties of the writes

  /** `save_group` adds exactly the new row, which a lookup then finds, under an id never used
    * before; a second group with the same discord id is refused with no change. */
  lemma {:induction false} SaveGroupSpec(t: Tables, name: string, dgroupId: string, now: int)
    requires WellFormed(t)
    ensures var (t', inserted) := AddGroup(t, name, dgroupId, now);
      && WellFormed(t')
      && t'.adverts == t.adverts && t'.advertSeq == t.advertSeq
      && (inserted <==> forall g :: g in t.groups ==> g.dgroupId != dgroupId)
      && (!inserted ==> t' == t)
      && (inserted ==>
            var row := Group(t.groupSeq + 1, name, dgroupId, now);
            && t'.groups == t.groups + [row]
            && (forall g :: g in t.groups ==> g.id < row.id)
            && FetchGroupByDgroupId(t', dgroupId) == Some(row))
  {
    var (t', inserted) := AddGroup(t, name, dgroupId, now);
    if inserted {
      var row := Group(t.groupSeq + 1, name, dgroupId, now);
      var gs := t'.groups;
      assert gs == t.groups + [row];
      forall i, j | 0 <= i < j < |gs| ensures GroupKey(gs[i]) != GroupKey(gs[j]) && GroupDiscordId(gs[i]) != GroupDiscordId(gs[j]) {
        if j == |gs| - 1 {
          assert gs[i] in t.groups;
        } else {
          assert gs[i] == t.groups[i] && gs[j] == t.groups[j];
        }
      }
      assert row in t'.groups;
      GroupByDgroupIdExact(t', row);
    }
  }

  /** `save_advert` stores the given `posted_at` and `found_at = updated_at = now` under a fresh
    * id; a second advert for the same submission is refused with no change. */
  lemma {:induction false} SaveAdvertSpec(t: Tables, fullname: string, permalink: string, groupId: nat, postedAt: int, now: int)
    requires WellFormed(t)
    ensures var (t', inserted) := AddAdvert(t, fullname, permalink, groupId, postedAt, now);
      && WellFormed(t')
      && t'.groups == t.groups && t'.groupSeq == t.groupSeq
      && (inserted <==> forall a :: a in t.adverts ==> a.fullname != fullname)
      && (!inserted ==> t' == t)
      && (inserted ==>
            var row := Advert(t.advertSeq + 1, fullname, permalink, groupId, now, now, postedAt);
            && t'.adverts == t.adverts + [row]
            && (forall a :: a in t.adverts ==> a.id < row.id)
            && FetchAdvertByFullname(t', fullname) == Some(row))
  {
    var (t', inserted) := AddAdvert(t, fullname, permalink, groupId, postedAt, now);
    if inserted {
      var row := Advert(t.advertSeq + 1, fullname, permalink, groupId, now, now, postedAt);
      var rows := t'.adverts;
      assert rows == t.adverts + [row];
      forall i, j | 0 <= i < j < |rows| ensures AdvertKey(rows[i]) != AdvertKey(rows[j]) && AdvertFullname(rows[i]) != AdvertFullname(rows[j]) {
        if j == |rows| - 1 {
          assert rows[i] in t.adverts;
        } else {
          assert rows[i] == t.adverts[i] && rows[j] == t.adverts[j];
        }
      }
      assert row in t'.adverts;
      AdvertByFullnameExact(t', row);
    }
  }

  /** `touch_advert` changes `updated_at` of the one row with that id and nothing else. */
  lemma {:induction false} TouchAdvertSpec(t: Tables, id: nat, now: int)
    requires WellFormed(t)
    ensures var t' := TouchAdvert(t, id, now);
      && WellFormed(t')
      && t'.groups == t.groups && t'.groupSeq == t.groupSeq && t'.advertSeq == t.advertSeq
      && |t'.adverts| == |t.adverts|
      && (forall i :: 0 <= i < |t.adverts| ==>
            t'.adverts[i] == if t.adverts[i].id == id then t.adverts[i].(updatedAt := now) else t.adverts[i])
      && (Linked(t) ==> Linked(t'))
  {
    var t' := TouchAdvert(t, id, now);
    var s, r := t.adverts, t'.adverts;
    forall i, j | 0 <= i < j < |r| ensures AdvertKey(r[i]) != AdvertKey(r[j]) && AdvertFullname(r[i]) != AdvertFullname(r[j]) {
      assert AdvertKey(s[i]) != AdvertKey(s[j]) && AdvertFullname(s[i]) != AdvertFullname(s[j]);
    }
    forall a | a in r ensures exists b :: b in s && b.id == a.id && b.groupId == a.groupId {
      var i :| 0 <= i < |r| && r[i] == a;
      assert s[i] in s;
    }
  }

  /** `delete_advert` removes exactly the row with that id. */
  lemma {:induction false} DeleteAdvertSpec(t: Tables, id: nat)
    requires WellFormed(t)
    ensures var t' := DeleteAdvert(t, id);
      && WellFormed(t')
      && t'.groups == t.groups && t'.groupSeq == t.groupSeq && t'.advertSeq == t.advertSeq
      && (forall a :: a in t'.adverts <==> a in t.adverts && a.id != id)
      && (Linked(t) ==> Linked(t'))
  {
    var t' := DeleteAdvert(t, id);
    var p := (a: Advert) => a.id != id;
    assert t'.adverts == Where(t.adverts, p);
    WhereDistinct(t.adverts, p, AdvertKey);
    WhereDistinct(t.adverts, p, AdvertFullname);
  }

  /** `prune` deletes exactly the adverts posted before `now - 24h` (one exactly a day old stays),
    * then exactly the groups no surviving advert refers to; nothing else changes. */
  lemma {:induction false} PruneSpec(t: Tables, now: int)
    requires WellFormed(t)
    ensures var t' := Prune(t, now);
      && WellFormed(t')
      && t'.groupSeq == t.groupSeq && t'.advertSeq == t.advertSeq
      && (forall a :: a in t'.adverts <==> a in t.adverts && a.postedAt >= now - RetentionSeconds)
      && (forall g :: g in t'.groups <==> g in t.groups && exists a :: a in t'.adverts && a.groupId == g.id)
      && (Linked(t) ==> Linked(t'))
  {
    var t' := Prune(t, now);
    var cutoff := now - RetentionSeconds;
    var p := (a: Advert) => !(a.postedAt < cutoff);
    var kept := Where(t.adverts, p);
    var q := (g: Group) => IsReferenced(kept, g.id);
    assert t'.adverts == kept && t'.groups == Where(t.groups, q);
    WhereDistinct(t.adverts, p, AdvertKey);
    WhereDistinct(t.adverts, p, AdvertFullname);
    WhereDistinct(t.groups, q, GroupKey);
    WhereDistinct(t.groups, q, GroupDiscordId);
    if Linked(t) {
      forall a | a in t'.adverts ensures exists g :: g in t'.groups && g.id == a.groupId {
        var g :| g in t.groups && g.id == a.groupId;
        assert IsReferenced(kept, g.id);
      }
    }
  }

  /** AUTOINCREMENT never hands out an id again: a group or advert saved after a prune or a
    * delete gets an id that no row of the earlier tables had, deleted rows included. */
  lemma IdsNeverReused(t: Tables, now: int, id: nat, name: string, dgroupId: string,
                       fullname: string, permalink: string, groupId: nat, postedAt: int)
    requires WellFormed(t)
    ensures var pruned := Prune(t, now);
      forall n, g :: n in AddGroup(pruned, name, dgroupId, now).0.groups && n !in pruned.groups && g in t.groups ==> n.id != g.id
    ensures var deleted := DeleteAdvert(t, id);
      forall n, a :: n in AddAdvert(deleted, fullname, permalink, groupId, postedAt, now).0.adverts && n !in deleted.adverts && a in t.adverts ==> n.id != a.id
  {
    PruneSpec(t, now);
    SaveGroupSpec(Prune(t, now), name, dgroupId, now);
    DeleteAdvertSpec(t, id);
    SaveAdvertSpec(DeleteAdvert(t, id), fullname, permalink, groupId, postedAt, now);
  }

  // ---------------------------------------------------------------- the store object

  class Store {
    var groups: seq<Group>
    var adverts: seq<Advert>
    var groupSeq: nat
    var advertSeq: nat

    function State(): Tables
      reads this
    {
      Tables(groups, adverts, groupSeq, advertSeq)
    }

    ghost predicate Valid()
      reads this
    {
      WellFormed(State())
    }

    /** Empty tables, as `create_missing_tables` leaves a new database file. */
    constructor ()
      ensures Valid() && State() == Tables([], [], 0, 0)
    {
      groups, adverts, groupSeq, advertSeq := [], [], 0, 0;
    }

    method SaveGroup(name: string, dgroupId: string, now: int) returns (inserted: bool)
      requires Valid()
      modifies this
      ensures Valid()
      ensures (State(), inserted) == AddGroup(old(State()), name, dgroupId, now)
    {
      SaveGroupSpec(State(), name, dgroupId, now);
      if FetchGroupByDgroupId(State(), dgroupId).Some? {
        inserted := false;
      } else {
        groupSeq := groupSeq + 1;
        groups := groups + [Group(groupSeq, name, dgroupId, now)];
        inserted := true;
      }
    }

    method SaveAdvert(fullname: string, permalink: string, groupId: nat, postedAt: int, now: int) returns (inserted: bool)
      requires Valid()
      modifies this
      ensures Valid()
      ensures (State(), inserted) == AddAdvert(old(State()), fullname, permalink, groupId, postedAt, now)
    {
      SaveAdvertSpec(State(), fullname, permalink, groupId, postedAt, now);
      if FetchAdvertByFullname(State(), fullname).Some? {
        inserted := false;
      } else {
        advertSeq := advertSeq + 1;
        adverts := adverts + [Advert(advertSeq, fullname, permalink, groupId, now, now, postedAt)];
        inserted := true;
      }
    }

    method Touch(id: nat, now: int)
      requires Valid()
      modifies this
      ensures Valid()
      ensures State() == TouchAdvert(old(State()), id, now)
    {
      TouchAdvertSpec(State(), id, now);
      adverts := TouchRows(adverts, id, now);
    }

    method Delete(id: nat)
      requires Valid()
      modifies this
      ensures Valid()
      ensures State() == DeleteAdvert(old(State()), id)
    {
      DeleteAdvertSpec(State(), id);
      adverts := Where(adverts, (a: Advert) => a.id != id);
    }

    method PruneTables(now: int)
      requires Valid()
      modifies this
      ensures Valid()
      ensures State() == Prune(old(State()), now)
    {
      PruneSpec(State(), now);
      var cutoff := now - RetentionSeconds;
      adverts := Where(adverts, (a: Advert) => !(a.postedAt < cutoff));
      var kept := adverts;
      groups := Where(groups, (g: Group) => IsReferenced(kept, g.id));
    }
  }
}
