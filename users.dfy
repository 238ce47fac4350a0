/**
 * The account record (apps/users/models.py): a user's storage quota and how
 * much of it the uploads use.
 */
module Users {
  import opened Core

  /** Primary keys of User rows; the database hands out positive integers. */
  type UserId = x: int | x > 0 witness 1

  /** Default quota for a new account: 5 GiB. */
  const DefaultStorageQuota: int := 5 * 1024 * 1024 * 1024

  class User {
    const id: UserId
    /** Set once, when the row is created (auto_now_add). */
    const createdAt: Time
    /** Refreshed by every save (auto_now). */
    var updatedAt: Time
    var storageUsed: int
    var storageQuota: int

    /** A newly created account: nothing used, the default quota. */
    constructor (id: UserId, now: Time)
      ensures this.id == id && createdAt == now && updatedAt == now
      ensures storageUsed == 0 && storageQuota == DefaultStorageQuota
    {
      this.id := id;
      createdAt := now;
      updatedAt := now;
      storageUsed := 0;
      storageQuota := DefaultStorageQuota;
    }

    /** Whether a file of `fileSize` bytes still fits; filling the quota exactly is allowed. */
    predicate HasStorageAvailable(fileSize: int)
      reads this
    {
      storageUsed + fileSize <= storageQuota
    }

    /** Adds `sizeDelta` (negative on deletion) to storage_used and saves that column and updated_at. */
    method UpdateStorageUsed(sizeDelta: int, now: Time)
      modifies this
      ensures storageUsed == old(storageUsed) + sizeDelta
      ensures storageQuota == old(storageQuota) && updatedAt == now
    {
      storageUsed := storageUsed + sizeDelta;
      updatedAt := now;
    }
  }

  /** Charging a size and then refunding it (upload, then delete) restores storage_used. */
  method ChargeThenRefund(u: User, fileSize: int, t1: Time, t2: Time)
    modifies u
    ensures u.storageUsed == old(u.storageUsed) && u.storageQuota == old(u.storageQuota)
    ensures u.updatedAt == t2
  {
    u.UpdateStorageUsed(fileSize, t1);
    u.UpdateStorageUsed(-fileSize, t2);
  }
}
