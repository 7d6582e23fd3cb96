/**
 * The default contact and collision tests of
 * UselessEngine/Physics/PhysicsCollisionDelegate.swift and the collision
 * component of UselessEngine/GameObjectCollisionComponent.swift. Category
 * sets are `UInt` option sets, so 64-bit vectors here.
 */
module LegacyCollision {
  import opened Wrappers
  import opened LegacyGeometry
  import opened LegacyAabb
  import opened Numeric

  type Categories = bv64

  /** `.none` and `.all`. */
  const NoCategories: Categories := 0
  const AllCategories: Categories := 0xFFFF_FFFF_FFFF_FFFF

  /** What a collision delegate exposes: its three masks and its contact box's centre and halfwidths. */
  datatype DelegateView = DelegateView(category: Categories, contact: Categories, collision: Categories,
                                       center: Position, halfwidths: Vector)

  /** `(a & b) > 0` on unsigned raw values. */
  predicate Meets(a: Categories, b: Categories) {
    a & b != 0
  }

  /** Either side's category is in the other's mask. */
  predicate Contactable(d: DelegateView, o: DelegateView) {
    Meets(d.category, o.contact) || Meets(d.contact, o.category)
  }

  predicate Collidable(d: DelegateView, o: DelegateView) {
    Meets(d.category, o.collision) || Meets(d.collision, o.category)
  }

  /** The two boxes' `intersects(with:)`. */
  function BoxHit(d: DelegateView, o: DelegateView): Option<Hit> {
    Overlap(d.center, d.halfwidths, o.center, o.halfwidths)
  }

  /**
   * `testContact(against:)`: `other` is the other object's collision
   * delegate, `None` when it has no physics or no delegate.
   */
  function TestContact(d: DelegateView, other: Option<DelegateView>): (r: bool)
    ensures other.None? ==> !r
    ensures other.Some? ==> (r <==> Contactable(d, other.value) && BoxHit(d, other.value).Some?)
  {
    match other
    case None => false
    case Some(o) =>
      var isContactable := Meets(d.category, o.contact) || Meets(d.contact, o.category);
      if isContactable then BoxHit(d, o).Some? else false
  }

  /** `testCollision(against:)`. */
  function TestCollision(d: DelegateView, other: Option<DelegateView>): (r: Option<Hit>)
    ensures other.None? ==> r.None?
    ensures other.Some? && !Collidable(d, other.value) ==> r.None?
    ensures other.Some? && Collidable(d, other.value) ==> r == BoxHit(d, other.value)
  {
    match other
    case None => None
    case Some(o) =>
      var isCollideable := Meets(d.category, o.collision) || Meets(d.collision, o.category);
      if isCollideable then BoxHit(d, o) else None
  }

  /** Whether two boxes overlap does not depend on which one asks. */
  lemma BoxHitSymmetric(d: DelegateView, o: DelegateView)
    ensures BoxHit(d, o).Some? <==> BoxHit(o, d).Some?
  {
    assert Abs(o.center.x - d.center.x) == Abs(d.center.x - o.center.x);
    assert Abs(o.center.y - d.center.y) == Abs(d.center.y - o.center.y);
    assert Abs(o.center.z - d.center.z) == Abs(d.center.z - o.center.z);
  }

  /** Swapping the two objects gives the same contact answer. */
  lemma TestContactSymmetric(d: DelegateView, o: DelegateView)
    ensures TestContact(d, Some(o)) == TestContact(o, Some(d))
  {
    BoxHitSymmetric(d, o);
    assert d.category & o.contact == o.contact & d.category;
    assert d.contact & o.category == o.category & d.contact;
  }

  /** A delegate whose masks are all `.none` neither touches nor collides with anything. */
  lemma NoMasksNoContact(d: DelegateView, o: DelegateView)
    requires d.category == NoCategories && d.contact == NoCategories && d.collision == NoCategories
    ensures !TestContact(d, Some(o)) && TestCollision(d, Some(o)).None?
  {
  }

  /** `.all` against a non-empty category always meets. */
  lemma AllMeetsAnyCategory(c: Categories)
    requires c != NoCategories
    ensures Meets(AllCategories, c)
  {
  }

  /**
   * `handleContact(of:against:)` and `handleCollisionEvent(on:withCorrectionOffsetOf:)`:
   * both stock handlers have empty bodies, so the world they are given is
   * returned unchanged.
   */
  function StockHandler<W>(world: W): (r: W)
    ensures r == world
  {
    world
  }

  /** UselessEngine/GameObjectCollisionComponent.swift. */
  class CollisionComponent {
    const categoryBitmask: Categories
    const storedContactBitmask: Categories
    const storedCollisionBitmask: Categories
    var contactCenter: Position
    var contactHalfwidths: Vector
    var isContactEnabled: bool
    var isCollisionEnabled: bool

    /** `init(categoryBitmask:contactBitmask:collisionBitmask:contactAABB:)`: both tests start enabled. */
    constructor (category: Categories, contact: Categories, collision: Categories, center: Position, halfwidths: Vector)
      ensures categoryBitmask == category && storedContactBitmask == contact && storedCollisionBitmask == collision
      ensures contactCenter == center && contactHalfwidths == halfwidths
      ensures isContactEnabled && isCollisionEnabled
      ensures ContactBitmask() == contact && CollisionBitmask() == collision
    {
      categoryBitmask, storedContactBitmask, storedCollisionBitmask := category, contact, collision;
      contactCenter, contactHalfwidths := center, halfwidths;
      isContactEnabled, isCollisionEnabled := true, true;
    }

    /** `contactBitmask`: the stored mask while contact is enabled, `.none` otherwise. */
    function ContactBitmask(): (r: Categories)
      reads this
      ensures r == if isContactEnabled then storedContactBitmask else NoCategories
    {
      if isContactEnabled then storedContactBitmask else NoCategories
    }

    /** `collisionBitmask`: the stored mask while collision is enabled, `.none` otherwise. */
    function CollisionBitmask(): (r: Categories)
      reads this
      ensures r == if isCollisionEnabled then storedCollisionBitmask else NoCategories
    {
      if isCollisionEnabled then storedCollisionBitmask else NoCategories
    }

    /** The component as the delegate tests see it. */
    function View(): DelegateView
      reads this
    {
      DelegateView(categoryBitmask, ContactBitmask(), CollisionBitmask(), contactCenter, contactHalfwidths)
    }

    /** `toggleContact(enabled:)`; the collision switch and every mask stay as they were. */
    method ToggleContact(enable: bool)
      modifies this`isContactEnabled
      ensures isContactEnabled == enable
      ensures ContactBitmask() == if enable then storedContactBitmask else NoCategories
      ensures CollisionBitmask() == old(CollisionBitmask())
    {
      isContactEnabled := enable;
    }

    /** `toggleCollision(enabled:)`; the contact switch and every mask stay as they were. */
    method ToggleCollision(enable: bool)
      modifies this`isCollisionEnabled
      ensures isCollisionEnabled == enable
      ensures CollisionBitmask() == if enable then storedCollisionBitmask else NoCategories
      ensures ContactBitmask() == old(ContactBitmask())
    {
      isCollisionEnabled := enable;
    }
  }

  /**
   * With contact switched off, an object is contactable only through its
   * own category meeting the other's contact mask.
   */
  lemma DisabledContactOnlyByCategory(d: DelegateView, o: DelegateView)
    requires d.contact == NoCategories
    ensures Contactable(d, o) <==> Meets(d.category, o.contact)
  {
  }
}
