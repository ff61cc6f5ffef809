/**
 * The tables the circle, invite, location and SOS handlers of backend/index.js
 * read and write, and the status codes they answer with.
 */
module Schema {
  import opened Wrappers

  type Email = string
  type Token = string

  /** `circles.id`, assigned by AUTO_INCREMENT. */
  type CircleId = int

  /** Latitude and longitude are only stored and copied back. */
  type Coordinate(==, !new)

  /** A row of `users`, reduced to the columns the core reads. */
  datatype User = User(name: string, photoUrl: Option<string>)

  /** A row of `circles` (its key is the id). */
  datatype Circle = Circle(name: string, leader: Email)

  /** A row of `circle_members`. */
  datatype MemberRow = MemberRow(circleId: CircleId, member: Email)

  /** A row of `invite_codes`; times are seconds on the server's clock. */
  datatype InviteRow = InviteRow(code: string, circleId: CircleId, expiresAt: int)

  /** The non-key columns of `user_locations`. */
  datatype Sample = Sample(latitude: Coordinate, longitude: Coordinate, timestamp: int)

  /** The HTTP status a handler answers with. */
  datatype Status = Ok | NotFound | InternalError
  {
    function Code(): int
    {
      match this
      case Ok => 200
      case NotFound => 404
      case InternalError => 500
    }
  }
}
