/**
 * The listing catalogue of api/models.py: brokers, properties and the
 * images and facts attached to a property, with the two delete rules of
 * its foreign keys: deleting a broker sets `broker` to null on its
 * properties (SET_NULL) and deleting a property deletes its images and
 * facts (CASCADE). Each table is a sequence of rows in primary-key order.
 */
module Models {
  import opened Wrappers
  import opened Seqs

  /** `Property.PROPERTY_TYPES` */
  datatype PropertyType = Villa | Apartment | House

  /** The text a `type` column holds for each choice. */
  function TypeLabel(t: PropertyType): (r: string)
    ensures |r| > 0
  {
    match t
    case Villa => "Villa"
    case Apartment => "Apartment"
    case House => "House"
  }

  /** The choice a stored `type` text stands for; only the three labels are choices. */
  function TypeOf(text: string): (r: Option<PropertyType>)
    ensures r.Some? ==> TypeLabel(r.value) == text
  {
    if text == "Villa" then Some(Villa)
    else if text == "Apartment" then Some(Apartment)
    else if text == "House" then Some(House)
    else None
  }

  /** Every choice is stored under its own label, and no two choices share one. */
  lemma TypeLabelRoundTrip(t: PropertyType)
    ensures TypeOf(TypeLabel(t)) == Some(t)
  {
    match t
    case Villa =>
    case Apartment => assert TypeLabel(t)[0] == 'A';
    case House => assert TypeLabel(t)[0] == 'H';
  }

  /** `Property.RENOVATION_LEVELS` */
  datatype Renovation = NoRenovation | Basic | Plus | Premium

  /** The stored code of each level. */
  function RenovationCode(r: Renovation): (code: string)
    ensures |code| > 0
  {
    match r
    case NoRenovation => "none"
    case Basic => "basic"
    case Plus => "plus"
    case Premium => "premium"
  }

  /** `default='none'` */
  const DefaultRenovation: Renovation := NoRenovation

  /** The level a stored code stands for. */
  function RenovationOf(code: string): (r: Option<Renovation>)
    ensures r.Some? ==> RenovationCode(r.value) == code
  {
    if code == "none" then Some(NoRenovation)
    else if code == "basic" then Some(Basic)
    else if code == "plus" then Some(Plus)
    else if code == "premium" then Some(Premium)
    else None
  }

  /** Every level is stored under its own code; the default is stored as "none". */
  lemma RenovationCodeRoundTrip(r: Renovation)
    ensures RenovationOf(RenovationCode(r)) == Some(r)
    ensures RenovationCode(DefaultRenovation) == "none"
  {
    match r
    case NoRenovation =>
    case Basic => assert RenovationCode(r)[0] == 'b';
    case Plus => assert RenovationCode(r)[0] == 'p' && RenovationCode(r)[1] == 'l';
    case Premium => assert RenovationCode(r)[1] == 'r';
  }

  datatype Broker = Broker(id: nat, name: string, imageUrl: string, phone: string, email: string)

  /**
   * A listing. `sqm` and `rooms` are non-negative integers; `price`,
   * `fee` and `published` are free text, e.g. "24 900 000 kr".
   * `createdAt` is the creation timestamp as a number.
   */
  datatype Property = Property(
    id: nat,
    kind: PropertyType,
    address: string,
    area: string,
    municipality: string,
    price: string,
    sqm: nat,
    rooms: nat,
    fee: Option<string>,
    published: string,
    isBidding: bool,
    renovation: Renovation,
    description: string,
    createdAt: int,
    broker: Option<nat>)

  datatype PropertyImage = PropertyImage(id: nat, property: nat, imageUrl: string)

  /** A label/value pair shown on a listing; `caption` is the `label` column. */
  datatype PropertyFact = PropertyFact(id: nat, property: nat, caption: string, value: string)

  predicate HasBroker(brokers: seq<Broker>, id: nat) {
    exists b :: b in brokers && b.id == id
  }

  predicate HasProperty(properties: seq<Property>, id: nat) {
    exists p :: p in properties && p.id == id
  }

  /** Every foreign key names a row that exists. */
  predicate Integrity(brokers: seq<Broker>, properties: seq<Property>,
                      images: seq<PropertyImage>, facts: seq<PropertyFact>)
  {
    && (forall p :: p in properties && p.broker.Some? ==> HasBroker(brokers, p.broker.value))
    && (forall im :: im in images ==> HasProperty(properties, im.property))
    && (forall f :: f in facts ==> HasProperty(properties, f.property))
  }

  /** SET_NULL on one listing: its broker link is cleared when it names `id`. */
  function Detach(p: Property, id: nat): Property {
    if p.broker == Some(id) then p.(broker := None) else p
  }

  /** SET_NULL over the table: every listing stays, in place, only links to `id` are cleared. */
  function DetachAll(ps: seq<Property>, id: nat): (r: seq<Property>)
    ensures |r| == |ps|
    ensures forall i :: 0 <= i < |ps| ==> r[i] == Detach(ps[i], id)
  {
    if ps == [] then [] else DetachAll(ps[..|ps| - 1], id) + [Detach(ps[|ps| - 1], id)]
  }

  /**
   * Deleting broker `id` keeps every listing with all its other fields and
   * the same id, and leaves no listing pointing at `id`; a listing that
   * pointed at another broker keeps that link.
   */
  lemma DetachKeepsListings(ps: seq<Property>, id: nat, i: nat)
    requires i < |ps|
    ensures DetachAll(ps, id)[i].broker != Some(id)
    ensures DetachAll(ps, id)[i] == ps[i].(broker := DetachAll(ps, id)[i].broker)
    ensures ps[i].broker != Some(id) ==> DetachAll(ps, id)[i] == ps[i]
    ensures ps[i].broker == Some(id) ==> DetachAll(ps, id)[i].broker == None
  {
  }

  /** The rows of a table other than the one with primary key `id`. */
  function WithoutBroker(bs: seq<Broker>, id: nat): seq<Broker> {
    Filter(bs, (b: Broker) => b.id != id)
  }

  function WithoutProperty(ps: seq<Property>, id: nat): seq<Property> {
    Filter(ps, (p: Property) => p.id != id)
  }

  /** CASCADE: the images of every listing but `id`. */
  function ImagesKept(ims: seq<PropertyImage>, id: nat): seq<PropertyImage> {
    Filter(ims, (im: PropertyImage) => im.property != id)
  }

  function FactsKept(fs: seq<PropertyFact>, id: nat): seq<PropertyFact> {
    Filter(fs, (f: PropertyFact) => f.property != id)
  }

  /** Deleting a broker with SET_NULL keeps every foreign key valid. */
  lemma DeleteBrokerKeepsIntegrity(brokers: seq<Broker>, properties: seq<Property>,
                                   images: seq<PropertyImage>, facts: seq<PropertyFact>, id: nat)
    requires Integrity(brokers, properties, images, facts)
    ensures Integrity(WithoutBroker(brokers, id), DetachAll(properties, id), images, facts)
  {
    var bs, ps := WithoutBroker(brokers, id), DetachAll(properties, id);
    forall p | p in ps && p.broker.Some? ensures HasBroker(bs, p.broker.value) {
      var i :| 0 <= i < |ps| && ps[i] == p;
      var was := properties[i];
      assert p == Detach(was, id);
      var b :| b in brokers && b.id == p.broker.value;
      assert b in bs;
    }
    forall x | x in images ensures HasProperty(ps, x.property) {
      var p :| p in properties && p.id == x.property;
      var i :| 0 <= i < |properties| && properties[i] == p;
      assert ps[i] in ps && ps[i].id == p.id;
    }
    forall x | x in facts ensures HasProperty(ps, x.property) {
      var p :| p in properties && p.id == x.property;
      var i :| 0 <= i < |properties| && properties[i] == p;
      assert ps[i] in ps && ps[i].id == p.id;
    }
  }

  /** Deleting a listing with CASCADE keeps every foreign key valid. */
  lemma DeletePropertyKeepsIntegrity(brokers: seq<Broker>, properties: seq<Property>,
                                     images: seq<PropertyImage>, facts: seq<PropertyFact>, id: nat)
    requires Integrity(brokers, properties, images, facts)
    ensures Integrity(brokers, WithoutProperty(properties, id), ImagesKept(images, id), FactsKept(facts, id))
  {
    var ps := WithoutProperty(properties, id);
    forall x | x in ImagesKept(images, id) ensures HasProperty(ps, x.property) {
      var p :| p in properties && p.id == x.property;
      assert p in ps;
    }
    forall x | x in FactsKept(facts, id) ensures HasProperty(ps, x.property) {
      var p :| p in properties && p.id == x.property;
      assert p in ps;
    }
  }

  /**
   * The catalogue tables. Deletes change rows in place, as the database does
   * for the foreign keys' `on_delete` rules.
   */
  class Catalog {
    var brokers: seq<Broker>
    var properties: seq<Property>
    var images: seq<PropertyImage>
    var facts: seq<PropertyFact>

    predicate Valid()
      reads this
    {
      Integrity(brokers, properties, images, facts)
    }

    constructor ()
      ensures Valid()
      ensures brokers == [] && properties == [] && images == [] && facts == []
    {
      brokers, properties, images, facts := [], [], [], [];
    }

    /** `Broker.delete()`: the broker row goes, its listings stay with a null broker. */
    method DeleteBroker(id: nat)
      requires Valid()
      modifies this
      ensures Valid()
      ensures brokers == WithoutBroker(old(brokers), id)
      ensures properties == DetachAll(old(properties), id)
      ensures images == old(images) && facts == old(facts)
    {
      DeleteBrokerKeepsIntegrity(brokers, properties, images, facts, id);
      properties := DetachAll(properties, id);
      brokers := WithoutBroker(brokers, id);
    }

    /** `Property.delete()`: the listing goes together with its images and facts, nothing else. */
    method DeleteProperty(id: nat)
      requires Valid()
      modifies this
      ensures Valid()
      ensures properties == WithoutProperty(old(properties), id)
      ensures images == ImagesKept(old(images), id)
      ensures facts == FactsKept(old(facts), id)
      ensures brokers == old(brokers)
    {
      DeletePropertyKeepsIntegrity(brokers, properties, images, facts, id);
      images := ImagesKept(images, id);
      facts := FactsKept(facts, id);
      properties := WithoutProperty(properties, id);
    }
  }

  /**
   * After the cascade no image or fact of listing `id` remains, and every
   * image and fact of another listing is still there.
   */
  lemma CascadeRemovesExactly(images: seq<PropertyImage>, facts: seq<PropertyFact>, id: nat)
    ensures forall im :: im in ImagesKept(images, id) <==> im in images && im.property != id
    ensures forall f :: f in FactsKept(facts, id) <==> f in facts && f.property != id
    ensures IsSubsequence(ImagesKept(images, id), images)
  {
  }
}
