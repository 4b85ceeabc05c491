/** The audit-trail writer of _lib/auditLog.ts: one append to the `auditLogs` table. */
module AuditLog {
  import opened Schema
  import opened Store
  import Json

  /** The `params` argument of createAuditLog. */
  datatype AuditParams = AuditParams(
    userId: UserId,
    userName: string,
    action: string,
    entityType: EntityType,
    entityId: nat,
    entityName: Option<string>,
    groupId: Option<GroupId>,
    description: string,
    metadata: Option<Json.Metadata>)

  /** The stored `metadata` column: absent when none is given, otherwise its JSON text. */
  function StoredMetadata(m: Option<Json.Metadata>): (r: Option<string>)
    ensures r.None? <==> m.None?
    ensures m.Some? ==> r.value == Json.Serialize(m.value)
  {
    if m.Some? then Some(Json.Serialize(m.value)) else None
  }

  /** The row createAuditLog stores for `p` under id `id` at time `now`: every field of
      the parameters copied verbatim, the metadata serialised, the timestamp the clock's. */
  function Entry(id: nat, now: int, p: AuditParams): (e: AuditLog)
    ensures e.id == id && e.timestamp == now
    ensures e.userId == p.userId && e.userName == p.userName && e.action == p.action
    ensures e.entityType == p.entityType && e.entityId == p.entityId && e.entityName == p.entityName
    ensures e.groupId == p.groupId && e.description == p.description
    ensures e.metadata == StoredMetadata(p.metadata)
  {
    AuditLog(id, p.userId, p.userName, p.action, p.entityType, p.entityId,
             p.entityName, p.groupId, p.description, StoredMetadata(p.metadata), now)
  }

  /** Appends exactly one entry, stamped with the current time, and changes no existing one. */
  method CreateAuditLog(db: Db, now: int, p: AuditParams)
    requires db.Valid()
    modifies db`auditLogs, db`nextId
    ensures db.Valid()
    ensures db.nextId == old(db.nextId) + 1
    ensures db.auditLogs == old(db.auditLogs) + [Entry(old(db.nextId), now, p)]
  {
    db.auditLogs := db.auditLogs + [Entry(db.nextId, now, p)];
    db.nextId := db.nextId + 1;
  }
}
