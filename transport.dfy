/**
 * The media player's transport state and the enable rules update_buttons
 * applies to the five transport actions.
 */
module Transport {

  datatype TransportState = Stopped | Playing | Paused

  /** Which transport actions are enabled. */
  datatype Controls = Controls(play: bool, pause: bool, stop: bool, previous: bool, next: bool)

  /** Qt enables every action it creates, so this is the state before the first refresh. */
  const AllEnabled: Controls := Controls(true, true, true, true, true)

  /**
   * update_buttons: `mediaCount` is the playlist length and `position` the
   * player's position in milliseconds.
   */
  function ControlsFor(mediaCount: nat, state: TransportState, position: int): Controls
  {
    Controls(
      play := mediaCount > 0 && state != Playing,
      pause := state == Playing,
      stop := state != Stopped,
      previous := position > 0,
      next := mediaCount > 1)
  }

  /**
   * The rules are consistent: play and pause are never offered together,
   * pause implies stop, and with media queued exactly one of play and pause
   * is offered. An empty playlist offers neither play nor next.
   */
  lemma ControlsConsistent(mediaCount: nat, state: TransportState, position: int)
    ensures var c := ControlsFor(mediaCount, state, position);
      !(c.play && c.pause) &&
      (c.pause ==> c.stop) &&
      (mediaCount > 0 ==> (c.play <==> !c.pause)) &&
      (c.next ==> c.play || c.pause) &&
      (mediaCount == 0 ==> !c.play && !c.next)
  {
  }

  /** While stopped only play (with media queued), previous and next can be offered. */
  lemma ControlsWhileStopped(mediaCount: nat, position: int)
    ensures var c := ControlsFor(mediaCount, Stopped, position);
      !c.pause && !c.stop && (c.play <==> mediaCount > 0)
  {
  }
}
