/** The cards of the CCcam share list and the comparisons between them (oscam/module-cccam-data.h,
    lines 90-131; oscam/module-cccam.c, lines 246-248, 995-1001 and 1052-1075). */
module Cards {

  type Byte = b: int | 0 <= b < 256

  datatype Option<T> = None | Some(value: T)

  datatype Provider = Provider(prov: nat, sa: seq<Byte>)

  datatype Sid = Sid(sid: nat, chid: nat, ecmlen: nat)

  type NodeId = seq<Byte>

  datatype CardType = LOCALCARD | BY_SERVICE_READER | BY_SERVICE_USER | BY_CAID1 | BY_CAID2 | BY_CAID3 | REMOTECARD

  /** `sidtab` names the service table a virtual card was made from; `au` says that the card has an
      origin reader with AU not disabled; `aufilter` is 0 for all clients, 1 for AU clients only and 2
      for the others. */
  datatype Card = Card(id: nat, remoteId: nat, caid: nat, hop: nat, reshare: nat, hexserial: seq<Byte>,
                       providers: seq<Provider>, badsids: seq<Sid>, goodsids: seq<Sid>, nodes: seq<NodeId>,
                       cardType: CardType, sidtab: Option<nat>, grp: bv64, au: bool, aufilter: int, timeout: int,
                       isExt: bool)

  function FirstNode(c: Card): Option<NodeId> {
    if c.nodes == [] then None else Some(c.nodes[0])
  }

  /** same_first_node */
  predicate SameFirstNode(a: Card, b: Card) {
    if a.nodes == [] && b.nodes == [] then true
    else if a.nodes == [] || b.nodes == [] then false
    else a.nodes[0] == b.nodes[0]
  }

  /** same_card2 */
  predicate SameCard2(a: Card, b: Card, compareGrp: bool) {
    && a.caid == b.caid
    && a.cardType == b.cardType
    && a.sidtab == b.sidtab
    && (!compareGrp || a.grp == b.grp)
    && a.hexserial == b.hexserial
  }

  /** same_card */
  predicate SameCard(a: Card, b: Card) {
    a.remoteId == b.remoteId && SameCard2(a, b, true) && SameFirstNode(a, b)
  }

  /** sid_eq: a zero chid or ecm length matches every other. */
  predicate SidEq(a: Sid, b: Sid) {
    a.sid == b.sid && (a.chid == b.chid || a.chid == 0 || b.chid == 0)
    && (a.ecmlen == b.ecmlen || a.ecmlen == 0 || b.ecmlen == 0)
  }

  predicate IsAuCard(c: Card) {
    c.au && exists i :: 0 <= i < |c.hexserial| && c.hexserial[i] != 0
  }

  /** What same_card2 compares without the group. */
  datatype Class = Class(caid: nat, cardType: CardType, sidtab: Option<nat>, hexserial: seq<Byte>)

  function ClassOf(c: Card): Class {
    Class(c.caid, c.cardType, c.sidtab, c.hexserial)
  }

  /** What same_card compares. */
  datatype Identity = Identity(remoteId: nat, class_: Class, grp: bv64, firstNode: Option<NodeId>)

  function IdentityOf(c: Card): Identity {
    Identity(c.remoteId, ClassOf(c), c.grp, FirstNode(c))
  }

  /** The comparisons are equality of what they look at, so they are equivalences. */
  lemma ComparisonsAreEqualities(a: Card, b: Card)
    ensures SameCard2(a, b, false) <==> ClassOf(a) == ClassOf(b)
    ensures SameCard(a, b) <==> IdentityOf(a) == IdentityOf(b)
  {
  }
}
