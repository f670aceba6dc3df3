/** Applying a block to the tip's coins cache, or taking it back, all or nothing: in a cache of its
    own that is flushed only on success. */
module TipOps {
  import opened Primitives
  import opened ChainView
  import opened Blocks
  import opened CoinsCache
  import BlockOps

  method ConnectToTip(rules: Rules, tip: CoinsViewCache, block: Block, height: nat)
    returns (ok: bool, undo: Option<BlockUndo>)
    requires rules.halvingInterval > 0 && block.hash != NULL_HASH
    requires tip.Valid() && !tip.hasModifier
    requires tip.Effective().bestBlock == block.hashPrev
    requires tip.Effective().bestAnchor in tip.Effective().anchors
    requires block.hash == rules.genesis ==> tip.BaseView().bestAnchor == tip.Effective().bestAnchor
    modifies tip.Repr
    ensures tip.Valid() && !tip.hasModifier
    ensures ok <==> Blocks.ConnectBlock(rules, old(tip.Effective()), block, height).Some?
    ensures ok ==> Connected(tip.Effective(), undo) ==
                   Blocks.ConnectBlock(rules, old(tip.Effective()), block, height).value
    ensures !ok ==> tip.Effective() == old(tip.Effective())
    ensures tip.Levels()[1..] == old(tip.Levels())[1..]
  {
    hide CoinsViewCache.Effective, CoinsViewCache.Valid, CoinsViewCache.Levels, CoinsViewCache.BaseView,
      CoinsViewCache.BelowBase, Blocks.ConnectBlock;
    var view := new CoinsViewCache(Parent(tip));
    OverParent(view, tip);
    ok, undo := BlockOps.ConnectBlock(rules, view, block, height);
    OverParent(view, tip);
    if ok {
      if block.hash == rules.genesis {
        GenesisKeepsAnchor(rules, old(tip.Effective()), block, height);
      }
      FlushExact(false, view.Effective(), view.hashBlock, view.hashAnchor, view.BelowBase());
      view.Flush();
      OverParent(view, tip);
    }
  }

  lemma GenesisKeepsAnchor(rules: Rules, v: View, block: Block, height: nat)
    requires rules.halvingInterval > 0 && block.hash == rules.genesis
    requires Blocks.ConnectBlock(rules, v, block, height).Some?
    ensures Blocks.ConnectBlock(rules, v, block, height).value.view.bestAnchor == v.bestAnchor
  {
  }

  method DisconnectFromTip(tip: CoinsViewCache, block: Block, undo: BlockUndo, height: nat) returns (clean: bool)
    requires tip.Valid() && !tip.hasModifier
    requires tip.Effective().bestBlock == block.hash
    requires tip.Effective().bestAnchor in tip.Effective().anchors
    requires undo.oldRoot != NullRoot && block.hashPrev != NULL_HASH
    modifies tip.Repr
    ensures tip.Valid() && !tip.hasModifier
    ensures Blocks.DisconnectBlock(old(tip.Effective()), block, undo, height) ==
            if clean then Some(tip.Effective()) else None
    ensures !clean ==> tip.Effective() == old(tip.Effective())
    ensures tip.Levels()[1..] == old(tip.Levels())[1..]
  {
    hide CoinsViewCache.Effective, CoinsViewCache.Valid, CoinsViewCache.Levels, CoinsViewCache.BaseView,
      CoinsViewCache.BelowBase, Blocks.DisconnectBlock;
    var view := new CoinsViewCache(Parent(tip));
    OverParent(view, tip);
    clean := BlockOps.DisconnectBlock(view, block, undo, height);
    OverParent(view, tip);
    if clean {
      FlushExact(false, view.Effective(), view.hashBlock, view.hashAnchor, view.BelowBase());
      view.Flush();
      OverParent(view, tip);
    }
  }

  /** Writing the tip's cache to the database, at any time, changes nothing that can be seen, as
      long as the empty tree is an anchor. */
  method FlushToDisk(tip: CoinsViewCache)
    requires tip.Valid() && !tip.hasModifier && tip.base.Disk?
    requires EMPTY_ROOT in tip.Effective().anchors
    modifies tip.Repr
    ensures tip.Valid() && !tip.hasModifier
    ensures tip.Effective() == old(tip.Effective()) == tip.BaseView()
  {
    OverDisk(tip);
    hide CoinsViewCache.Effective, CoinsViewCache.Valid, CoinsViewCache.Levels, CoinsViewCache.BaseView,
      CoinsViewCache.BelowBase;
    FlushExact(true, tip.Effective(), tip.hashBlock, tip.hashAnchor, tip.BelowBase());
    tip.Flush();
  }

  /** On the database, a hash that is not held is the database's. */
  lemma OverDisk(tip: CoinsViewCache)
    requires tip.Valid() && tip.base.Disk?
    ensures tip.Shape()
    ensures tip.hashBlock != NULL_HASH ==> tip.Effective().bestBlock == tip.hashBlock
    ensures tip.hashAnchor != NullRoot ==> tip.Effective().bestAnchor == tip.hashAnchor
    ensures tip.hashBlock == NULL_HASH ==> tip.Effective().bestBlock == tip.BelowBase().bestBlock
    ensures tip.hashAnchor == NullRoot ==> tip.Effective().bestAnchor == tip.BelowBase().bestAnchor
  {
  }
}
