// The wrappers of backend/open_webui/models/chats.py that edit the JSON history
// and its chat_message rows together, and the read that heals the rows.
module DualWrites {
  import opened Basics
  import opened HistoryModel
  import opened ChatHistories
  import opened Mirror

  method UpsertMessageToChat(h: ChatHistory, t: ChatMessageTable, id: Id, p: Payload, now: int)
    requires h.Valid()
    modifies h, t
    ensures h.Valid()
    ensures Chat(h.Value(), t.rows) == DualStep(old(Chat(h.Value(), t.rows)), DualWrite(id, p, now))
  {
    var _ := h.RepairChatCurrentId();
    var saved := h.UpsertMessage(id, p, now);
    t.UpsertMessage(id, saved);
  }

  method DeleteMessageFromChat(h: ChatHistory, t: ChatMessageTable, d: Id)
    requires h.Valid()
    modifies h, t
    ensures h.Valid()
    ensures Chat(h.Value(), t.rows) == DualStep(old(Chat(h.Value(), t.rows)), DualRemove(d))
  {
    var _ := h.RepairChatCurrentId();
    var deleted := h.DeleteMessage(d);
    if deleted == {} {
      return;
    }
    t.Backfill(h.order, h.msgs);
    t.DeleteMessageIds(deleted);
  }

  method GetMessagesMap(h: ChatHistory, t: ChatMessageTable, rowOrder: seq<Id>) returns (r: Messages)
    requires h.Valid() && Ordered(rowOrder, Bare(t.rows))
    modifies t
    ensures (r, t.rows) == Read(h.msgs, old(t.rows), rowOrder)
  {
    var built := t.GetMessagesMap(rowOrder);
    if built.None? {
      t.Backfill(h.order, h.msgs);
      return h.msgs;
    }
    var missing := Missing(h.msgs, built.value);
    var order := Restrict(h.order, missing.Keys);
    RestrictNoDup(h.order, missing.Keys);
    t.Backfill(order, missing);
    return built.value + missing;
  }
}
