/** The two relation tables that let either side of a pledge find it. */
module Relations {
  import opened Words
  import opened Names
  import opened PledgeModel

  datatype Link = Link(name: Name, pledgeId: U64)

  /** One row per user, holding a list of the other sides. */
  type Relations = map<Name, seq<Link>>

  function LinksOf(rel: Relations, user: Name): seq<Link> {
    if user in rel then rel[user] else []
  }

  function AddLink(rel: Relations, user: Name, link: Link): Relations {
    rel[user := LinksOf(rel, user) + [link]]
  }

  /** The pair that a link stands for, seen from the payer's or from the creator's table. */
  function PairOf(user: Name, other: Name, fromPayer: bool): Pair {
    if fromPayer then Pair(user, other) else Pair(other, user)
  }

  ghost predicate Distinct(links: seq<Link>) {
    forall i, j :: 0 <= i < j < |links| ==> links[i].name != links[j].name
  }

  /** The table holds exactly the pledges, each once, with its id. */
  ghost predicate Mirrors(rel: Relations, pledges: map<Pair, Pledge>, fromPayer: bool) {
    && (forall u :: u in rel ==> Distinct(rel[u]))
    && (forall u, other: Name, id: U64 ::
          Link(other, id) in LinksOf(rel, u)
          <==> PairOf(u, other, fromPayer) in pledges && pledges[PairOf(u, other, fromPayer)].id == id)
  }

  lemma AddKeepsMirrors(rel: Relations, pledges: map<Pair, Pledge>, fromPayer: bool, user: Name, other: Name, p: Pledge)
    requires Mirrors(rel, pledges, fromPayer)
    requires PairOf(user, other, fromPayer) !in pledges
    ensures Mirrors(AddLink(rel, user, Link(other, p.id)), pledges[PairOf(user, other, fromPayer) := p], fromPayer)
  {
    var rel', links := AddLink(rel, user, Link(other, p.id)), LinksOf(rel, user);
    forall i | 0 <= i < |links| ensures links[i].name != other {
      assert Link(links[i].name, links[i].pledgeId) in LinksOf(rel, user);
    }
    var pledges' := pledges[PairOf(user, other, fromPayer) := p];
    forall u, o: Name, id: U64
      ensures Link(o, id) in LinksOf(rel', u)
         <==> PairOf(u, o, fromPayer) in pledges' && pledges'[PairOf(u, o, fromPayer)].id == id
    {
      assert Link(o, id) in LinksOf(rel, u)
        <==> PairOf(u, o, fromPayer) in pledges && pledges[PairOf(u, o, fromPayer)].id == id;
    }
  }

  lemma UpdateKeepsMirrors(rel: Relations, pledges: map<Pair, Pledge>, fromPayer: bool, k: Pair, p: Pledge)
    requires Mirrors(rel, pledges, fromPayer)
    requires k in pledges && pledges[k].id == p.id
    ensures Mirrors(rel, pledges[k := p], fromPayer)
  {
  }

  /** b is in a's list of creators with an id exactly when a is in b's list of payers with that id,
      exactly when the pledge exists under that id. Also for a == b. */
  lemma RelationsAgree(fromTable: Relations, toTable: Relations, pledges: map<Pair, Pledge>, a: Name, b: Name, id: U64)
    requires Mirrors(fromTable, pledges, true) && Mirrors(toTable, pledges, false)
    ensures Link(b, id) in LinksOf(fromTable, a) <==> Pair(a, b) in pledges && pledges[Pair(a, b)].id == id
    ensures Link(b, id) in LinksOf(fromTable, a) <==> Link(a, id) in LinksOf(toTable, b)
  {
  }

  /** The pledges table, keyed by id, and the pairs are two views of the same pledges. */
  ghost predicate SamePledges(table: map<U64, Pledge>, pledges: map<Pair, Pledge>) {
    && (forall id :: id in table ==>
          var k := Pair(table[id].payer, table[id].creator);
          table[id].id == id && k in pledges && pledges[k] == table[id])
    && (forall k :: k in pledges ==>
          && pledges[k].id in table && table[pledges[k].id] == pledges[k]
          && pledges[k].payer == k.payer && pledges[k].creator == k.creator)
  }

  lemma WriteKeepsSamePledges(table: map<U64, Pledge>, pledges: map<Pair, Pledge>, k: Pair, p: Pledge)
    requires SamePledges(table, pledges) && p.payer == k.payer && p.creator == k.creator
    requires if k in pledges then pledges[k].id == p.id else p.id !in table
    ensures SamePledges(table[p.id := p], pledges[k := p])
  {
  }

  method FindLink(links: seq<Link>, name: Name) returns (i: nat)
    ensures i <= |links|
    ensures forall j :: 0 <= j < i ==> links[j].name != name
    ensures i < |links| ==> links[i].name == name
  {
    i := 0;
    while i < |links| && links[i].name != name
      invariant i <= |links|
      invariant forall j :: 0 <= j < i ==> links[j].name != name
    {
      i := i + 1;
    }
  }

  ghost predicate Lists(links: seq<Link>, name: Name) {
    exists i :: 0 <= i < |links| && links[i].name == name
  }

  /** Half of upsert_pledge_relations: a new row, a longer list, or nothing if the name is listed. */
  method UpsertLink(rel: Relations, user: Name, link: Link) returns (rel': Relations)
    ensures rel' == if Lists(LinksOf(rel, user), link.name) then rel else AddLink(rel, user, link)
    ensures (forall i :: 0 <= i < |LinksOf(rel, user)| ==> LinksOf(rel, user)[i].name != link.name) ==>
      && LinksOf(rel', user) == LinksOf(rel, user) + [link]
      && forall other :: other != user ==> LinksOf(rel', other) == LinksOf(rel, other)
  {
    rel' := rel;
    if user !in rel {
      rel' := rel[user := [link]];
      assert [] + [link] == [link];
    } else {
      var i := FindLink(rel[user], link.name);
      if i == |rel[user]| {
        rel' := rel[user := rel[user] + [link]];
      }
    }
  }

  /** A mirrored table lists the other side of a pair if and only if the pair has a pledge. */
  lemma NamedIffPledged(rel: Relations, pledges: map<Pair, Pledge>, fromPayer: bool, user: Name, other: Name)
    requires Mirrors(rel, pledges, fromPayer)
    ensures Lists(LinksOf(rel, user), other) <==> PairOf(user, other, fromPayer) in pledges
  {
    var links, k := LinksOf(rel, user), PairOf(user, other, fromPayer);
    if Lists(links, other) {
      var i :| 0 <= i < |links| && links[i].name == other;
      assert Link(other, links[i].pledgeId) in links;
    }
    if k in pledges {
      assert Link(other, pledges[k].id) in links;
    }
  }
}
