/** `ItemMapper` (and the comment mapper it is used with): an item's
    response shapes. */
module ItemMapper {
  import opened Common
  import opened Entities

  datatype ItemDto = ItemDto(id: int, name: string, description: string, available: bool)

  datatype ItemPostDto = ItemPostDto(id: int, name: string, description: string, available: bool,
                                     requestId: Option<int>)

  datatype CommentResponseDto = CommentResponseDto(id: int, text: string, authorName: string, created: int)

  datatype ItemGetResponseDto = ItemGetResponseDto(id: int, name: string, description: string,
                                                   available: bool,
                                                   lastBooking: Option<BookingInItem>,
                                                   nextBooking: Option<BookingInItem>,
                                                   comments: seq<CommentResponseDto>)

  function ToItemDto(item: Item): ItemDto
  {
    ItemDto(item.id, item.name, item.description, item.available)
  }

  function ToItemPostDto(item: Item): ItemPostDto
  {
    match item.request
    case Some(requestId) => ItemPostDto(item.id, item.name, item.description, item.available, Some(requestId))
    case None => ItemPostDto(item.id, item.name, item.description, item.available, None)
  }

  function ToItemWithBookingsDto(item: ItemDto, lastBooking: Option<BookingInItem>,
                                 nextBooking: Option<BookingInItem>,
                                 comments: seq<CommentResponseDto>): ItemGetResponseDto
  {
    ItemGetResponseDto(item.id, item.name, item.description, item.available,
                       lastBooking, nextBooking, comments)
  }

  function ToCommentResponseDto(c: Comment): CommentResponseDto
  {
    CommentResponseDto(c.id, c.text, c.author.name, c.created)
  }

  /** The item an `ItemPostDto` describes, given the owner it leaves out. */
  function ItemOfPostDto(d: ItemPostDto, ownerId: int): Item
  {
    Item(d.id, d.name, d.description, d.available, ownerId, d.requestId)
  }

  /** `toItemPostDto` loses only the owner: with the owner put back the item is
      recovered, its request id included whether it is present or absent. */
  lemma PostDtoRoundTrip(item: Item)
    ensures ItemOfPostDto(ToItemPostDto(item), item.ownerId) == item
    ensures ToItemPostDto(item).requestId == item.request
    ensures item.request.None? ==> ToItemPostDto(item).requestId.None?
  {
  }

  /** `toItemDto` and `toItemPostDto` agree on the four fields they share. */
  lemma PostDtoExtendsItemDto(item: Item)
    ensures var d := ToItemPostDto(item);
            ToItemDto(item) == ItemDto(d.id, d.name, d.description, d.available)
  {
  }

  /** `toItemWithBookingsDto` keeps the item's fields and passes the last and
      next bookings and the comments through unchanged. */
  lemma WithBookingsKeepsParts(item: ItemDto, lastBooking: Option<BookingInItem>,
                               nextBooking: Option<BookingInItem>, comments: seq<CommentResponseDto>)
    ensures var r := ToItemWithBookingsDto(item, lastBooking, nextBooking, comments);
            ItemDto(r.id, r.name, r.description, r.available) == item
            && r.lastBooking == lastBooking && r.nextBooking == nextBooking && r.comments == comments
  {
  }
}
