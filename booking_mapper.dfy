/** `BookingMapper` (with the user mapper it calls): the response shape of a
    booking, and of a list of bookings. */
module BookingMapper {
  import opened Common
  import opened Entities
  import opened ItemMapper

  datatype UserResultDto = UserResultDto(id: int, name: string, email: string)

  datatype BookingResultDto = BookingResultDto(id: int, start: int, end: int, status: BookingStatus,
                                               booker: UserResultDto, item: ItemDto)

  function ToUserResultDto(u: User): UserResultDto
  {
    UserResultDto(u.id, u.name, u.email)
  }

  function ToBookingResultDto(b: Booking): BookingResultDto
  {
    BookingResultDto(b.id, b.start, b.end, b.status, ToUserResultDto(b.booker), ToItemDto(b.item))
  }

  /** `toBookingResultDtoList`: the same length and order, element by element. */
  function ToBookingResultDtoList(bs: seq<Booking>): (r: seq<BookingResultDto>)
    ensures |r| == |bs|
    ensures forall i :: 0 <= i < |bs| ==> r[i] == ToBookingResultDto(bs[i])
  {
    if bs == [] then [] else [ToBookingResultDto(bs[0])] + ToBookingResultDtoList(bs[1..])
  }

  /** Mapping a concatenation is concatenating the mapped parts. */
  lemma {:induction false} DtoListOfConcat(a: seq<Booking>, b: seq<Booking>)
    ensures ToBookingResultDtoList(a + b) == ToBookingResultDtoList(a) + ToBookingResultDtoList(b)
  {
    if a != [] {
      assert (a + b)[1..] == a[1..] + b;
      DtoListOfConcat(a[1..], b);
    }
  }

  /** The booking a result DTO describes, given the two item fields it leaves out. */
  function BookingOfResultDto(d: BookingResultDto, ownerId: int, request: Option<int>): Booking
  {
    Booking(d.id, d.start, d.end,
            Item(d.item.id, d.item.name, d.item.description, d.item.available, ownerId, request),
            User(d.booker.id, d.booker.name, d.booker.email),
            d.status)
  }

  /** The result DTO copies id, start, end and status, the booker as {id, name,
      email} and the item as {id, name, description, available}: only the
      item's owner and request are dropped. */
  lemma ResultDtoRoundTrip(b: Booking)
    ensures BookingOfResultDto(ToBookingResultDto(b), b.item.ownerId, b.item.request) == b
  {
  }
}
