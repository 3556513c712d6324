/** The booking settings of src/core/config.py, passed explicitly instead of read from a global. */
module Config {
  import opened TimeUtils

  datatype Settings = Settings(
    appOffset: Offset,      // app_timezone, as a fixed offset from UTC
    maxDaysAhead: int,      // booking_max_days_ahead
    slotMinutes: int,       // booking_slot_minutes
    durationMinutes: int,   // booking_duration_minutes
    openTime: Clock,        // booking_open_time
    closeTime: Clock        // booking_close_time
  )

  /** The defaults: UTC, 30 days ahead, a 15-minute grid, 2-hour bookings, open 12:00 to 22:00. */
  const Default := Settings(0, 30, 15, 120, Clock(12, 0, 0, 0), Clock(22, 0, 0, 0))
}
