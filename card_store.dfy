/** The card handlers of the board backend over a document store held as two maps:
    card id to card, column id to column. `save()` and the `findBy...` updates become
    map updates, each recorded in the ghost log `writes` so that what a handler writes,
    and in which order, can be stated. */
module CardStore {
  import opened Options
  import opened JsArray
  import CardMove

  type CardId = string
  type ColumnId = string

  /** A card: the column it belongs to, and its free-form fields (title, description, ...). */
  datatype Card = Card(owner: ColumnId, fields: map<string, string>)

  /** A column: its title, the board that owns it and its ordered card ids, which a
      document may lack altogether. */
  datatype Column = Column(title: string, owner: string, cards: Option<seq<CardId>>)

  /** A request body for creating or updating a card: an optional `owner` and other fields. */
  datatype CardPatch = CardPatch(owner: Option<ColumnId>, fields: map<string, string>)

  /** The body of a move request; `destinationDroppableId` is read but never used. */
  datatype MoveBody = MoveBody(
    destinationIndex: int,
    sourceIndex: int,
    sourceDroppableId: ColumnId,
    destinationDroppableId: ColumnId)

  /** Which document a move found missing. */
  datatype Missing = CardMissing | SourceColumnMissing | DestinationColumnMissing

  /** A move answers with the (possibly updated) card, or a 404 naming what was missing. */
  datatype MoveReply = Moved(card: Card) | NotFound(missing: Missing)

  /** One document write, in the order the handler issues it. */
  datatype Write =
    | CardCreated(card: CardId)
    | CardUpdated(card: CardId)
    | CardRemoved(card: CardId)
    | CardSaved(card: CardId)
    | ColumnSaved(column: ColumnId)

  const NotFoundStatus: int := 404

  /** The message of each 404 a move can answer with. */
  function Message(m: Missing): (msg: string)
    ensures m == CardMissing <==> msg == "Card not found"
    ensures m == SourceColumnMissing <==> msg == "Source column not found"
    ensures m == DestinationColumnMissing <==> msg == "Destination column not found"
  {
    match m
    case CardMissing => "Card not found"
    case SourceColumnMissing => "Source column not found"
    case DestinationColumnMissing => "Destination column not found"
  }

  /** `column.cards || []`: a missing list reads as empty. */
  function CardList(c: Column): (ids: seq<CardId>)
    ensures c.cards.None? ==> ids == []
    ensures c.cards.Some? ==> ids == c.cards.value
  {
    c.cards.GetOr([])
  }

  /** A column whose card list has been replaced by `cards`. */
  function WithCards(c: Column, cards: seq<CardId>): (r: Column)
    ensures r.cards == Some(cards) && r.title == c.title && r.owner == c.owner
  {
    c.(cards := Some(cards))
  }

  /** `findByIdAndUpdate(id, body)`: fields in the body overwrite those of the card. */
  function Patched(c: Card, p: CardPatch): (r: Card)
    ensures r.owner == (if p.owner.Some? then p.owner.value else c.owner)
    ensures r.fields.Keys == c.fields.Keys + p.fields.Keys
    ensures forall f :: f in r.fields ==> r.fields[f] == if f in p.fields then p.fields[f] else c.fields[f]
  {
    Card(p.owner.GetOr(c.owner), c.fields + p.fields)
  }

  class Board {
    var cards: map<CardId, Card>
    var columns: map<ColumnId, Column>
    ghost var writes: seq<Write>

    /** Every id a column lists names an existing card that names that column as its
        owner: the consistency between `cards` lists and `owner` the moves should keep. */
    ghost predicate ListedCardsOwned()
      reads this
    {
      Owned(cards, columns)
    }

    constructor (cards0: map<CardId, Card>, columns0: map<ColumnId, Column>)
      ensures cards == cards0 && columns == columns0 && writes == []
    {
      cards, columns, writes := cards0, columns0, [];
    }

    /** `getById`: the card, or 404. */
    method GetById(cardId: CardId) returns (r: Option<Card>)
      ensures r.Some? <==> cardId in cards
      ensures r.Some? ==> r.value == cards[cardId]
    {
      if cardId in cards {
        r := Some(cards[cardId]);
      } else {
        r := None;
      }
    }

    /** `addNew`: creates a card owned by the column of the path, whatever `owner` the body
        carries; no column's list changes, and no check that the column exists. `newId`
        is the fresh id the store assigns. */
    method AddNew(columnId: ColumnId, body: CardPatch, newId: CardId) returns (r: Card)
      requires newId !in cards
      modifies this
      ensures r.owner == columnId && r.fields == body.fields
      ensures cards == old(cards)[newId := r] && columns == old(columns)
      ensures writes == old(writes) + [CardCreated(newId)]
      ensures old(ListedCardsOwned()) ==> ListedCardsOwned()
    {
      r := Card(columnId, body.fields);
      cards := cards[newId := r];
      writes := writes + [CardCreated(newId)];
    }

    /** `removeById`: deletes the card and leaves every column untouched, so a column can
        go on listing the removed id; the consistency survives exactly when no column
        lists it. */
    method RemoveById(cardId: CardId) returns (r: Option<Card>)
      modifies this
      ensures r.Some? <==> cardId in old(cards)
      ensures r.Some? ==>
        r.value == old(cards)[cardId] && cards == old(cards) - {cardId} && writes == old(writes) + [CardRemoved(cardId)]
      ensures r.None? ==> cards == old(cards) && writes == old(writes)
      ensures columns == old(columns)
      ensures old(ListedCardsOwned()) ==>
        (ListedCardsOwned() <==> forall c :: c in columns ==> cardId !in CardList(columns[c]))
    {
      if cardId !in cards {
        return None;
      }
      r := Some(cards[cardId]);
      cards := cards - {cardId};
      writes := writes + [CardRemoved(cardId)];
      if old(ListedCardsOwned()) && !ListedCardsOwned() {
        var c, id :| c in columns && id in CardList(columns[c]) && !(id in cards && cards[id].owner == c);
        assert id == cardId;
      }
    }

    /** `updateById`: applies the body to the card, or 404. A body with an `owner` moves the
        card's reference without touching any column, so consistency is kept only when
        the owner stays. */
    method UpdateById(cardId: CardId, body: CardPatch) returns (r: Option<Card>)
      modifies this
      ensures r.Some? <==> cardId in old(cards)
      ensures r.Some? ==>
        r.value == Patched(old(cards)[cardId], body) && cards == old(cards)[cardId := r.value] && writes == old(writes) + [CardUpdated(cardId)]
      ensures r.None? ==> cards == old(cards) && writes == old(writes)
      ensures columns == old(columns)
      ensures old(ListedCardsOwned()) ==>
        (ListedCardsOwned() <==>
           r.None? || r.value.owner == old(cards)[cardId].owner || NotListed(columns, cardId))
    {
      if cardId !in cards {
        return None;
      }
      var updated := Patched(cards[cardId], body);
      cards := cards[cardId := updated];
      writes := writes + [CardUpdated(cardId)];
      r := Some(updated);
      if old(ListedCardsOwned()) && updated.owner != old(cards)[cardId].owner && !NotListed(columns, cardId) {
        var c :| c in columns && cardId in CardList(columns[c]);
        assert cards[cardId].owner != c;
      }
    }

    /** The cross-column path of `setNewCardOwner`, shared by both versions: the card id is
        filtered out of the source list and the source saved; a missing destination then
        answers 404; otherwise the id is spliced into the destination list at
        `destinationIndex`, the destination saved, and the card saved with the destination
        as owner. */
    method MoveAcrossColumns(cardId: CardId, src: ColumnId, dst: ColumnId, destinationIndex: int)
      returns (r: MoveReply)
      requires cardId in cards && src in columns && src != dst
      modifies this
      ensures var source := WithCards(old(columns)[src], Without(CardList(old(columns)[src]), cardId));
        if dst !in old(columns) then
          && r == NotFound(DestinationColumnMissing)
          && cards == old(cards)
          && columns == old(columns)[src := source]
          && writes == old(writes) + [ColumnSaved(src)]
        else
          var destination := WithCards(old(columns)[dst],
            SpliceInsert(CardList(old(columns)[dst]), destinationIndex, cardId));
          var moved := old(cards)[cardId].(owner := dst);
          && r == Moved(moved)
          && cards == old(cards)[cardId := moved]
          && columns == old(columns)[src := source][dst := destination]
          && writes == old(writes) + [ColumnSaved(src), ColumnSaved(dst), CardSaved(cardId)]
      ensures old(ListedCardsOwned()) ==>
        (ListedCardsOwned() <==> (r.Moved? ==> ListedOnlyIn(old(columns), cardId, src, dst)))
      ensures old(ListedCardsOwned()) && old(cards)[cardId].owner == src ==> ListedCardsOwned()
    {
      ghost var before := columns;
      var card := cards[cardId];
      var sourceColumn := columns[src];
      sourceColumn := WithCards(sourceColumn, Without(CardList(sourceColumn), cardId));
      columns := columns[src := sourceColumn];
      writes := writes + [ColumnSaved(src)];
      if dst !in columns {
        if Owned(cards, before) {
          FilterKeepsOwnership(cards, before, cardId, src);
        }
        return NotFound(DestinationColumnMissing);
      }
      var destinationColumn := columns[dst];
      destinationColumn := WithCards(destinationColumn,
        SpliceInsert(CardList(destinationColumn), destinationIndex, cardId));
      columns := columns[dst := destinationColumn];
      writes := writes + [ColumnSaved(dst)];
      card := card.(owner := dst);
      cards := cards[cardId := card];
      writes := writes + [CardSaved(cardId)];
      r := Moved(card);
      assert writes == old(writes) + [ColumnSaved(src), ColumnSaved(dst), CardSaved(cardId)];
      assert columns == before[src := sourceColumn][dst := WithCards(before[dst],
        SpliceInsert(CardList(before[dst]), destinationIndex, cardId))];
      if Owned(old(cards), before) {
        CrossMoveKeepsOwnership(old(cards), before, cardId, src, dst, destinationIndex);
      }
    }

    /** `setNewCardOwner` as written. A missing card or source column answers 404 before
        anything is written. Within one column the reordered list is built on an in-memory
        copy of the column that is never saved: the store keeps the old order and only the
        unchanged card is saved. Across columns the card id is filtered out of the source
        list and the source saved; then a missing destination answers 404, leaving the
        source saved without the card and the owner as it was; otherwise the id is spliced
        into the destination list at `destinationIndex`, the destination saved, and the
        card saved with the destination as owner. */
    method SetNewCardOwner(cardId: CardId, columnId: ColumnId, body: MoveBody) returns (r: MoveReply)
      modifies this
      ensures cardId !in old(cards) ==> r == NotFound(CardMissing)
      ensures cardId in old(cards) && body.sourceDroppableId !in old(columns) ==> r == NotFound(SourceColumnMissing)
      ensures r.NotFound? && r.missing != DestinationColumnMissing ==>
        cards == old(cards) && columns == old(columns) && writes == old(writes)
      ensures cardId in old(cards) && body.sourceDroppableId in old(columns) && body.sourceDroppableId == columnId ==>
        && r == Moved(old(cards)[cardId])
        && cards == old(cards) && columns == old(columns)
        && writes == old(writes) + [CardSaved(cardId)]
      ensures cardId in old(cards) && body.sourceDroppableId in old(columns) && body.sourceDroppableId != columnId ==>
        var src := body.sourceDroppableId;
        var source := WithCards(old(columns)[src], Without(CardList(old(columns)[src]), cardId));
        if columnId !in old(columns) then
          && r == NotFound(DestinationColumnMissing)
          && cards == old(cards)
          && columns == old(columns)[src := source]
          && writes == old(writes) + [ColumnSaved(src)]
        else
          var destination := WithCards(old(columns)[columnId],
            SpliceInsert(CardList(old(columns)[columnId]), body.destinationIndex, cardId));
          var moved := old(cards)[cardId].(owner := columnId);
          && r == Moved(moved)
          && cards == old(cards)[cardId := moved]
          && columns == old(columns)[src := source][columnId := destination]
          && writes == old(writes) + [ColumnSaved(src), ColumnSaved(columnId), CardSaved(cardId)]
      ensures old(ListedCardsOwned()) ==>
        (ListedCardsOwned() <==>
           (r.Moved? && body.sourceDroppableId != columnId ==>
              ListedOnlyIn(old(columns), cardId, body.sourceDroppableId, columnId)))
      ensures old(ListedCardsOwned()) && cardId in old(cards) && old(cards)[cardId].owner == body.sourceDroppableId ==>
        ListedCardsOwned()
    {
      if cardId !in cards {
        return NotFound(CardMissing);
      }
      var card := cards[cardId];
      var sourceColumnId := body.sourceDroppableId;
      var destinationColumnId := columnId;
      if sourceColumnId !in columns {
        return NotFound(SourceColumnMissing);
      }
      var sourceColumn := columns[sourceColumnId];
      if sourceColumnId == destinationColumnId {
        var updatedCards := CardList(sourceColumn);
        if CardMove.SourceInRange(updatedCards, body.sourceIndex) {
          updatedCards := CardMove.Reordered(updatedCards, body.sourceIndex, body.destinationIndex);
        }
        // Out of range, `splice` yields `undefined` and the code inserts it; the model
        // leaves the copy's list as it is, since the copy is discarded either way.
        sourceColumn := WithCards(sourceColumn, updatedCards);
        // the in-memory copy is not saved
        cards := cards[cardId := card];
        writes := writes + [CardSaved(cardId)];
        r := Moved(card);
      } else {
        r := MoveAcrossColumns(cardId, sourceColumnId, destinationColumnId, body.destinationIndex);
      }
    }

    /** `setNewCardOwner` with the same-column reorder saved, as the handler evidently
        intends: the column is saved with the reordered list before the card is saved.
        The cross-column path is unchanged. The source index must name an element. */
    method SetNewCardOwnerSaved(cardId: CardId, columnId: ColumnId, body: MoveBody) returns (r: MoveReply)
      requires cardId in cards && body.sourceDroppableId in columns && body.sourceDroppableId == columnId ==>
        CardMove.SourceInRange(CardList(columns[columnId]), body.sourceIndex)
      modifies this
      ensures cardId !in old(cards) ==> r == NotFound(CardMissing)
      ensures cardId in old(cards) && body.sourceDroppableId !in old(columns) ==> r == NotFound(SourceColumnMissing)
      ensures r.NotFound? && r.missing != DestinationColumnMissing ==>
        cards == old(cards) && columns == old(columns) && writes == old(writes)
      ensures cardId in old(cards) && body.sourceDroppableId in old(columns) && body.sourceDroppableId == columnId ==>
        && r == Moved(old(cards)[cardId])
        && cards == old(cards)
        && columns == old(columns)[columnId := WithCards(old(columns)[columnId],
             CardMove.Reordered(CardList(old(columns)[columnId]), body.sourceIndex, body.destinationIndex))]
        && writes == old(writes) + [ColumnSaved(columnId), CardSaved(cardId)]
      ensures cardId in old(cards) && body.sourceDroppableId in old(columns) && body.sourceDroppableId != columnId ==>
        var src := body.sourceDroppableId;
        var source := WithCards(old(columns)[src], Without(CardList(old(columns)[src]), cardId));
        if columnId !in old(columns) then
          && r == NotFound(DestinationColumnMissing)
          && cards == old(cards)
          && columns == old(columns)[src := source]
          && writes == old(writes) + [ColumnSaved(src)]
        else
          var destination := WithCards(old(columns)[columnId],
            SpliceInsert(CardList(old(columns)[columnId]), body.destinationIndex, cardId));
          var moved := old(cards)[cardId].(owner := columnId);
          && r == Moved(moved)
          && cards == old(cards)[cardId := moved]
          && columns == old(columns)[src := source][columnId := destination]
          && writes == old(writes) + [ColumnSaved(src), ColumnSaved(columnId), CardSaved(cardId)]
      ensures old(ListedCardsOwned()) ==>
        (ListedCardsOwned() <==>
           (r.Moved? && body.sourceDroppableId != columnId ==>
              ListedOnlyIn(old(columns), cardId, body.sourceDroppableId, columnId)))
      ensures old(ListedCardsOwned()) && cardId in old(cards) && old(cards)[cardId].owner == body.sourceDroppableId ==>
        ListedCardsOwned()
    {
      if cardId !in cards {
        return NotFound(CardMissing);
      }
      var card := cards[cardId];
      var sourceColumnId := body.sourceDroppableId;
      var destinationColumnId := columnId;
      if sourceColumnId !in columns {
        return NotFound(SourceColumnMissing);
      }
      var sourceColumn := columns[sourceColumnId];
      if sourceColumnId == destinationColumnId {
        var updatedCards := CardMove.Reordered(CardList(sourceColumn), body.sourceIndex, body.destinationIndex);
        if Owned(cards, columns) {
          ReorderKeepsOwnership(cards, columns, sourceColumnId, body.sourceIndex, body.destinationIndex);
        }
        sourceColumn := WithCards(sourceColumn, updatedCards);
        columns := columns[sourceColumnId := sourceColumn];
        writes := writes + [ColumnSaved(sourceColumnId)];
        cards := cards[cardId := card];
        writes := writes + [CardSaved(cardId)];
        r := Moved(card);
        assert writes == old(writes) + [ColumnSaved(columnId), CardSaved(cardId)];
      } else {
        r := MoveAcrossColumns(cardId, sourceColumnId, destinationColumnId, body.destinationIndex);
      }
    }
  }

  /** Every listed id names a card owned by the listing column. */
  ghost predicate Owned(cards: map<CardId, Card>, columns: map<ColumnId, Column>) {
    forall c, id :: c in columns && id in CardList(columns[c]) ==> id in cards && cards[id].owner == c
  }

  /** Filtering a card id out of one column's list keeps a consistent board consistent. */
  lemma FilterKeepsOwnership(cards: map<CardId, Card>, columns: map<ColumnId, Column>, cardId: CardId, src: ColumnId)
    requires src in columns
    requires Owned(cards, columns)
    ensures Owned(cards, columns[src := WithCards(columns[src], Without(CardList(columns[src]), cardId))])
  {
    WithoutMembers(CardList(columns[src]), cardId);
  }

  /** Reordering one column's list keeps a consistent board consistent. */
  lemma ReorderKeepsOwnership(cards: map<CardId, Card>, columns: map<ColumnId, Column>, src: ColumnId,
                              sourceIndex: int, destinationIndex: int)
    requires src in columns && CardMove.SourceInRange(CardList(columns[src]), sourceIndex)
    requires Owned(cards, columns)
    ensures Owned(cards, columns[src := WithCards(columns[src],
      CardMove.Reordered(CardList(columns[src]), sourceIndex, destinationIndex))])
  {
    CardMove.ReorderedIsPermutation(CardList(columns[src]), sourceIndex, destinationIndex);
  }

  /** No column lists `cardId`. */
  ghost predicate NotListed(columns: map<ColumnId, Column>, cardId: CardId) {
    forall c :: c in columns ==> cardId !in CardList(columns[c])
  }

  /** No column other than `a` and `b` lists `cardId`. */
  ghost predicate ListedOnlyIn(columns: map<ColumnId, Column>, cardId: CardId, a: ColumnId, b: ColumnId) {
    forall c :: c in columns && c != a && c != b ==> cardId !in CardList(columns[c])
  }

  /** From a consistent board, a cross-column move keeps every listed id owned by its
      listing column exactly when no third column lists the moved card (which holds, in
      particular, when the card leaves the column that owns it). */
  lemma CrossMoveKeepsOwnership(cards: map<CardId, Card>, columns: map<ColumnId, Column>,
                                cardId: CardId, src: ColumnId, dst: ColumnId, destinationIndex: int)
    requires src in columns && dst in columns && src != dst && cardId in cards
    requires Owned(cards, columns)
    ensures Owned(cards[cardId := cards[cardId].(owner := dst)],
                  columns[src := WithCards(columns[src], Without(CardList(columns[src]), cardId))]
                         [dst := WithCards(columns[dst], SpliceInsert(CardList(columns[dst]), destinationIndex, cardId))])
      <==> ListedOnlyIn(columns, cardId, src, dst)
    ensures cards[cardId].owner == src ==> ListedOnlyIn(columns, cardId, src, dst)
  {
    var cards' := cards[cardId := cards[cardId].(owner := dst)];
    var columns' := columns[src := WithCards(columns[src], Without(CardList(columns[src]), cardId))]
                           [dst := WithCards(columns[dst], SpliceInsert(CardList(columns[dst]), destinationIndex, cardId))];
    if ListedOnlyIn(columns, cardId, src, dst) {
      forall c, id | c in columns' && id in CardList(columns'[c])
        ensures id in cards' && cards'[id].owner == c
      {
        if c == dst {
          SpliceInsertMembers(CardList(columns[dst]), destinationIndex, cardId);
          assert id == cardId || id in CardList(columns[dst]);
        } else if c == src {
          WithoutMembers(CardList(columns[src]), cardId);
          assert id in CardList(columns[src]) && id != cardId;
        } else {
          assert columns'[c] == columns[c];
        }
      }
    } else {
      var c :| c in columns && c != src && c != dst && cardId in CardList(columns[c]);
      assert columns'[c] == columns[c];
      assert cards'[cardId].owner != c;
    }
  }
}
