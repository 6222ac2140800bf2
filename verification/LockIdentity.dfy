/** How a lock gets its identity: the string that is hashed into the id, and the keys built for endpoint locks. */
module LockIdentity {
  import opened Options
  import opened Strings

  datatype LockEntity =
    | DATABASE | DATABASE_INDEX | CHARGING_STATION | SITE_AREA | USER | LOGGING | PERFORMANCE | TRANSACTION
    | CAR | CAR_CATALOG | INVOICE | ASSET | OCPI_ENDPOINT | TAG | OICP_ENDPOINT | ASYNC_TASK
    | ASYNC_TASK_MANAGER | SCHEDULER_TASK

  datatype LockType = EXCLUSIVE

  function EntityName(e: LockEntity): string {
    match e
    case DATABASE => "database"
    case DATABASE_INDEX => "database-index"
    case CHARGING_STATION => "charging-station"
    case SITE_AREA => "site-area"
    case USER => "user"
    case LOGGING => "logging"
    case PERFORMANCE => "performance"
    case TRANSACTION => "transaction"
    case CAR => "car"
    case CAR_CATALOG => "car-catalog"
    case INVOICE => "invoice"
    case ASSET => "asset"
    case OCPI_ENDPOINT => "ocpi-endpoint"
    case TAG => "tag"
    case OICP_ENDPOINT => "oicp-endpoint"
    case ASYNC_TASK => "async-task"
    case ASYNC_TASK_MANAGER => "async-task-manager"
    case SCHEDULER_TASK => "scheduler-task"
  }

  function TypeName(t: LockType): string {
    match t case EXCLUSIVE => "E"
  }

  const DEFAULT_TENANT := "default"

  /** The lock object as it is built and stored. */
  datatype Lock = Lock(
    id: string, tenantID: string, entity: LockEntity, key: string, kind: LockType,
    timestamp: int, expirationDate: Option<int>)

  datatype Created = Ok(lock: Lock) | TenantMissing | KeyMissing

  function IdentityString(tenantID: string, entity: LockEntity, key: string, kind: LockType): string {
    tenantID + "~" + EntityName(entity) + "~" + ToLower(key) + "~" + TypeName(kind)
  }

  function CreateLock(hash: string -> string, tenantID: string, entity: LockEntity, key: string, kind: LockType,
      validitySecs: int, now: int): Created
  {
    if tenantID == "" then TenantMissing
    else if key == "" then KeyMissing
    else Ok(Lock(hash(IdentityString(tenantID, entity, key, kind)), tenantID, entity, ToLower(key), kind, now,
      if validitySecs > 0 then Some(now + validitySecs * 1000) else None))
  }

  /** What a lock object holds: it is refused without a tenant, and else without a key; its key is in lower case, it is
      dated now, and it expires that many seconds later if these are more than none, and never otherwise. */
  lemma CreatedIs(hash: string -> string, tenantID: string, entity: LockEntity, key: string, kind: LockType,
      validitySecs: int, now: int)
    ensures var created := CreateLock(hash, tenantID, entity, key, kind, validitySecs, now);
      && (created == TenantMissing <==> tenantID == "") && (created == KeyMissing <==> tenantID != "" && key == "")
      && (created.Ok? ==>
            && created.lock.tenantID == tenantID && created.lock.entity == entity && created.lock.kind == kind
            && SameLetters(key, created.lock.key) && (forall c :: c in created.lock.key ==> !('A' <= c <= 'Z'))
            && created.lock.timestamp == now
            && (validitySecs <= 0 ==> created.lock.expirationDate == None)
            && (validitySecs > 0 ==> created.lock.expirationDate == Some(created.lock.timestamp + validitySecs * 1000)))
  {
    LowerIs(key, key);
  }

  /** The entity a name belongs to, told from its length and first letters. */
  ghost function EntityOf(name: string): LockEntity
    requires |name| > 1
  {
    match |name|
    case 3 => if name[0] == 'c' then CAR else TAG
    case 4 => USER
    case 5 => ASSET
    case 7 => if name[0] == 'l' then LOGGING else INVOICE
    case 8 => DATABASE
    case 9 => SITE_AREA
    case 10 => ASYNC_TASK
    case 11 => if name[0] == 'p' then PERFORMANCE else if name[0] == 't' then TRANSACTION else CAR_CATALOG
    case 13 => if name[1] == 'c' then OCPI_ENDPOINT else OICP_ENDPOINT
    case 14 => if name[0] == 'd' then DATABASE_INDEX else SCHEDULER_TASK
    case 16 => CHARGING_STATION
    case _ => ASYNC_TASK_MANAGER
  }

  lemma EntityNameTells(e: LockEntity)
    ensures |EntityName(e)| > 1 && EntityOf(EntityName(e)) == e && '~' !in EntityName(e)
  {
  }

  /** For tenants whose ids hold no `~`, two created locks share an id exactly when tenant, entity, key up
      to case, and type agree. */
  lemma SameIdExactlyWhen(hash: string -> string,
      t1: string, e1: LockEntity, k1: string, y1: LockType, v1: int, n1: int,
      t2: string, e2: LockEntity, k2: string, y2: LockType, v2: int, n2: int)
    requires forall a: string, b: string :: hash(a) == hash(b) ==> a == b
    requires '~' !in t1 && '~' !in t2
    requires CreateLock(hash, t1, e1, k1, y1, v1, n1).Ok? && CreateLock(hash, t2, e2, k2, y2, v2, n2).Ok?
    ensures CreateLock(hash, t1, e1, k1, y1, v1, n1).lock.id == CreateLock(hash, t2, e2, k2, y2, v2, n2).lock.id
      <==> t1 == t2 && e1 == e2 && ToLower(k1) == ToLower(k2) && y1 == y2
  {
    EntityNameTells(e1);
    EntityNameTells(e2);
    IdentityCut(t1, EntityName(e1), ToLower(k1), t2, EntityName(e2), ToLower(k2));
  }

  lemma IdentityCut(t1: string, n1: string, k1: string, t2: string, n2: string, k2: string)
    requires '~' !in t1 && '~' !in t2 && '~' !in n1 && '~' !in n2
    ensures t1 + "~" + n1 + "~" + k1 + "~" + "E" == t2 + "~" + n2 + "~" + k2 + "~" + "E"
      <==> t1 == t2 && n1 == n2 && k1 == k2
  {
    var r1, r2 := k1 + "~" + "E", k2 + "~" + "E";
    assert t1 + "~" + n1 + "~" + k1 + "~" + "E" == t1 + "~" + (n1 + "~" + r1);
    assert t2 + "~" + n2 + "~" + k2 + "~" + "E" == t2 + "~" + (n2 + "~" + r2);
    if t1 + "~" + (n1 + "~" + r1) == t2 + "~" + (n2 + "~" + r2) {
      CutUnique(t1, n1 + "~" + r1, t2, n2 + "~" + r2, '~');
      CutUnique(n1, r1, n2, r2, '~');
      assert k1 == r1[..|r1| - 2] && k2 == r2[..|r2| - 2];
    }
  }

  /** Two tenants have locks with one id between them. */
  ghost predicate CanClash(t1: string, t2: string) {
    exists e1, k1, e2, k2 :: SameIdentity(t1, e1, k1, t2, e2, k2)
  }

  predicate SameIdentity(t1: string, e1: LockEntity, k1: string, t2: string, e2: LockEntity, k2: string) {
    k1 != "" && k2 != "" && IdentityString(t1, e1, k1, EXCLUSIVE) == IdentityString(t2, e2, k2, EXCLUSIVE)
  }

  /** The second tenant id is the first, a `~` and an entity name, and maybe another `~` and a lower-case text. */
  ghost predicate Extends(t1: string, t2: string) {
    exists e, rest :: ExtendsBy(t1, t2, e, rest)
  }

  predicate ExtendsBy(t1: string, t2: string, e: LockEntity, rest: string) {
    t2 == t1 + "~" + EntityName(e) + rest && LowerRest(rest)
  }

  predicate LowerRest(rest: string) {
    rest == "" || (rest[0] == '~' && ToLower(rest) == rest)
  }

  /** Why tenant ids are asked to hold no `~`: two different ones can have locks with the same id if and only if one
      extends the other in this way. */
  lemma TenantsClashExactlyWhen(t1: string, t2: string)
    requires t1 != "" && t2 != "" && t1 != t2
    ensures CanClash(t1, t2) <==> Extends(t1, t2) || Extends(t2, t1)
  {
    if CanClash(t1, t2) {
      ClashExtends(t1, t2);
    }
    if Extends(t1, t2) {
      ExtensionClashes(t1, t2);
    }
    if Extends(t2, t1) {
      ExtensionClashes(t2, t1);
      ClashIsMutual(t2, t1);
    }
  }

  lemma ClashIsMutual(t1: string, t2: string)
    requires CanClash(t1, t2)
    ensures CanClash(t2, t1)
  {
    var e1, k1, e2, k2 :| SameIdentity(t1, e1, k1, t2, e2, k2);
    assert SameIdentity(t2, e2, k2, t1, e1, k1);
  }

  lemma ClashExtends(t1: string, t2: string)
    requires t1 != t2 && CanClash(t1, t2)
    ensures Extends(t1, t2) || Extends(t2, t1)
  {
    var e1, k1, e2, k2 :| SameIdentity(t1, e1, k1, t2, e2, k2);
    EntityNameTells(e1);
    EntityNameTells(e2);
    var n1, n2, l1, l2 := EntityName(e1), EntityName(e2), ToLower(k1), ToLower(k2);
    Reassociate(t1, n1, l1);
    Reassociate(t2, n2, l2);
    if |t1| <= |t2| {
      var rest := LongerExtends(t1, n1, k1, t2, n2 + "~" + (l2 + "~" + "E"));
      assert ExtendsBy(t1, t2, e1, rest);
    } else {
      var rest := LongerExtends(t2, n2, k2, t1, n1 + "~" + (l1 + "~" + "E"));
      assert ExtendsBy(t2, t1, e2, rest);
    }
  }

  lemma Reassociate(t: string, n: string, k: string)
    ensures t + "~" + n + "~" + k + "~" + "E" == t + "~" + (n + "~" + (k + "~" + "E"))
  {
  }

  lemma LongerExtends(t1: string, n1: string, k1: string, t2: string, y: string) returns (rest: string)
    requires '~' !in n1 && |y| > 2 && t1 != t2 && |t1| <= |t2|
    requires t1 + "~" + (n1 + "~" + (ToLower(k1) + "~" + "E")) == t2 + "~" + y
    ensures t2 == t1 + "~" + n1 + rest && LowerRest(rest)
  {
    var l1 := ToLower(k1) + "~" + "E";
    var w := LongerStarts(t1, n1 + "~" + l1, t2, y);
    rest := EntityThenLower(n1, k1, w, y);
  }

  lemma LongerStarts(t1: string, x: string, t2: string, y: string) returns (w: string)
    requires t1 != t2 && |t1| <= |t2| && t1 + "~" + x == t2 + "~" + y
    ensures t2 == t1 + "~" + w && x == w + "~" + y
  {
    var whole := t1 + "~" + x;
    assert t1 == whole[..|t1|] && t2 == whole[..|t2|];
    w := t2[|t1| + 1..];
    assert x == whole[|t1| + 1..] == w + "~" + y;
  }

  /** If a name, `~`, a lower-case text, `~` and `E` is also `w ~ y`, then `w` is the name, or the name, `~` and a
      lower-case text. */
  lemma EntityThenLower(n1: string, k1: string, w: string, y: string) returns (rest: string)
    requires '~' !in n1 && |y| > 2
    requires n1 + "~" + (ToLower(k1) + "~" + "E") == w + "~" + y
    ensures w == n1 + rest && LowerRest(rest)
  {
    var l1 := ToLower(k1) + "~" + "E";
    JoinSplit(w, '~');
    var parts := Split(w, '~');
    if |parts| == 1 {
      CutUnique(n1, l1, w, y, '~');
      rest := "";
    } else {
      var w1, w2 := parts[0], Join(parts[1..], '~');
      assert w + "~" + y == w1 + "~" + (w2 + "~" + y);
      CutUnique(n1, l1, w1, w2 + "~" + y, '~');
      assert w2 == l1[..|w2|] == ToLower(k1)[..|w2|];
      rest := "~" + w2;
    }
  }

  lemma ExtensionClashes(t1: string, t2: string)
    requires Extends(t1, t2)
    ensures CanClash(t1, t2)
  {
    var e, rest :| ExtendsBy(t1, t2, e, rest);
    var tail := "user~k";
    assert tail == "user" + "~" + "k";
    LowerTail();
    if rest == "" {
      MoveTail(t1, EntityName(e), "user", "k");
      assert SameIdentity(t1, e, tail, t2, USER, "k");
    } else {
      var x := rest[1..];
      LowerKey(x, tail);
      assert ToLower(x) == ToLower(rest)[1..] == x;
      assert rest == "~" + x;
      MoveText(t1, EntityName(e), x, "user", "k");
      assert SameIdentity(t1, e, x + "~" + tail, t2, USER, "k");
    }
  }

  lemma LowerTail()
    ensures ToLower("user~k") == "user~k" && ToLower("k") == "k"
  {
  }

  lemma LowerKey(x: string, tail: string)
    requires ToLower(tail) == tail && ToLower(x) == x
    ensures ToLower(x + "~" + tail) == x + "~" + tail
  {
    LowerConcat(x + "~", tail);
    LowerConcat(x, "~");
  }

  lemma MoveTail(t: string, n: string, m: string, k: string)
    ensures t + "~" + n + "~" + (m + "~" + k) + "~" + "E" == t + "~" + n + "~" + m + "~" + k + "~" + "E"
  {
  }

  lemma MoveText(t: string, n: string, x: string, m: string, k: string)
    ensures t + "~" + n + "~" + (x + "~" + (m + "~" + k)) + "~" + "E"
      == t + "~" + n + ("~" + x) + "~" + m + "~" + k + "~" + "E"
  {
  }

  /** The key of an OCPI or OICP endpoint lock. */
  function EndpointKey(endpointID: string, action: string): string {
    endpointID + "-" + action
  }

  /** For endpoint ids without dashes, the locks of two endpoint actions clash exactly when endpoint and
      action agree up to case. Actions themselves may hold dashes. */
  lemma EndpointLocksClashExactlyWhen(hash: string -> string, tenantID: string, entity: LockEntity, now: int,
      p1: string, a1: string, p2: string, a2: string)
    requires forall a: string, b: string :: hash(a) == hash(b) ==> a == b
    requires tenantID != "" && '~' !in tenantID && '-' !in p1 && '-' !in p2
    ensures var l1, l2 := CreateLock(hash, tenantID, entity, EndpointKey(p1, a1), EXCLUSIVE, 600, now),
                          CreateLock(hash, tenantID, entity, EndpointKey(p2, a2), EXCLUSIVE, 600, now);
      && l1.Ok? && l2.Ok?
      && (l1.lock.id == l2.lock.id <==> ToLower(p1) == ToLower(p2) && ToLower(a1) == ToLower(a2))
  {
    SameIdExactlyWhen(hash, tenantID, entity, EndpointKey(p1, a1), EXCLUSIVE, 600, now,
      tenantID, entity, EndpointKey(p2, a2), EXCLUSIVE, 600, now);
    KeySplit(p1, a1);
    KeySplit(p2, a2);
    if ToLower(EndpointKey(p1, a1)) == ToLower(EndpointKey(p2, a2)) {
      CutUnique(ToLower(p1), ToLower(a1), ToLower(p2), ToLower(a2), '-');
    }
  }

  lemma KeySplit(p: string, a: string)
    requires '-' !in p
    ensures ToLower(EndpointKey(p, a)) == ToLower(p) + "-" + ToLower(a) && '-' !in ToLower(p)
  {
  }
}
