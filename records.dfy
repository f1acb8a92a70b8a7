/** The stored records of the bot (data/models.py), with times as whole seconds. */
module Records {
  import opened Wrappers

  /** A Discord user id. */
  type UserId = int

  /** A point in time, in whole seconds since 1970-01-01 00:00:00 UTC. */
  type Time = int

  /** The first whole second a `datetime` holds, 0001-01-01 00:00:00 UTC (`datetime.min`). */
  const MinTime: Time := -62135596800

  /** The last whole second a `datetime` holds, 9999-12-31 23:59:59 UTC (`datetime.max`). */
  const MaxTime: Time := 253402300799

  /** The most whole seconds a `timedelta` holds: 999999999 days and 86399 seconds (`timedelta.max`). */
  const MaxDelta: nat := 86399999999999

  /** An active shield of a user: when it was set, when it runs out, and which alerts were sent. */
  datatype Shield = Shield(
    name: string,
    userId: UserId,
    displayName: string,
    entered: Time,
    expires: Time,
    expiredNotification: bool,
    expiringNotification: bool)

  /** A user who reinforces. */
  datatype Reinforcement = Reinforcement(
    name: string,
    userId: UserId,
    displayName: string,
    entered: Time)

  /** A tracked prey: who tracks it, where, since when, and which of its tiers were already announced. */
  datatype Prey = Prey(
    userId: UserId,
    preyName: string,
    coords: Option<string>,
    entered: Time,
    fourNotification: bool,
    eightNotification: bool,
    twelveNotification: bool,
    twentyFourNotification: bool)

  /** The author of a command message, as far as the handlers use it. */
  datatype Author = Author(id: UserId, name: string, displayName: string)
}
