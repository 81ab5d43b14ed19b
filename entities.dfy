/** The persistent records of the sharing service. Ids and timestamps are
    integers; a reference to another entity is kept where the JPA entity keeps
    one (a booking holds its item and its booker), otherwise only the id is kept. */
module Entities {
  import opened Common

  datatype User = User(id: int, name: string, email: string)

  /** `request` is the id of the item request this item answers, if any. */
  datatype Item = Item(id: int, name: string, description: string, available: bool,
                       ownerId: int, request: Option<int>)

  datatype BookingStatus = WAITING | APPROVED | REJECTED

  datatype Booking = Booking(id: int, start: int, end: int, item: Item, booker: User,
                             status: BookingStatus)

  datatype ItemRequest = ItemRequest(id: int, description: string, requesterId: int, created: int)

  datatype Comment = Comment(id: int, text: string, itemId: int, author: User, created: int)

  /** The projection `BookingInItemDto(b.id, b.start, b.end, b.status, b.booker.id)`. */
  datatype BookingInItem = BookingInItem(id: int, start: int, end: int, status: BookingStatus,
                                         bookerId: int)
}
