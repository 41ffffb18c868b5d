/**
 * GameManager: the game-over latch and the pause switch. `Time.timeScale` is
 * the engine's global clock speed; here it is a field of the manager. The
 * two UI panels are optional game objects whose active flag the methods set.
 * `GameOver` reports the growth calls it makes instead of calling
 * `IvyNode.PauseAllGrowth` on a static.
 */
module Game {
  import opened Engine

  /** An optional panel as a frame: itself when it exists, nothing otherwise. */
  function Panel(p: GameObject?): set<GameObject> {
    if p == null then {} else {p}
  }

  class GameManager {
    var gameOver: bool
    var isPaused: bool
    var timeScale: real
    const gameOverPanel: GameObject?
    const pausePanel: GameObject?

    constructor (gameOverPanel: GameObject?, pausePanel: GameObject?)
      ensures this.gameOverPanel == gameOverPanel && this.pausePanel == pausePanel
      ensures !gameOver && !isPaused && timeScale == 1.0
    {
      this.gameOverPanel := gameOverPanel;
      this.pausePanel := pausePanel;
      gameOver := false;
      isPaused := false;
      timeScale := 1.0;
    }

    /**
     * The state the methods keep: the clock is stopped exactly while paused,
     * the pause panel is shown exactly while paused and the game-over panel
     * exactly once the game is over (each when it exists), and the two are
     * different objects.
     */
    ghost predicate Valid()
      reads this, gameOverPanel, pausePanel
    {
      && timeScale == (if isPaused then 0.0 else 1.0)
      && (pausePanel != null ==> pausePanel.active == isPaused)
      && (gameOverPanel != null ==> gameOverPanel.active == gameOver)
      && (gameOverPanel != null && pausePanel != null ==> gameOverPanel != pausePanel)
    }

    /** `Start`: hide both panels, clear both flags and run the clock at normal speed. */
    method Start()
      modifies this`gameOver, this`isPaused, this`timeScale, Panel(gameOverPanel)`active, Panel(pausePanel)`active
      ensures !gameOver && !isPaused && timeScale == 1.0
      ensures gameOverPanel != null ==> !gameOverPanel.active
      ensures pausePanel != null ==> !pausePanel.active
      ensures gameOverPanel == null || pausePanel == null || gameOverPanel != pausePanel ==> Valid()
    {
      if gameOverPanel != null {
        gameOverPanel.active := false;
      }
      if pausePanel != null {
        pausePanel.active := false;
      }
      gameOver := false;
      isPaused := false;
      timeScale := 1.0;
    }

    /**
     * `GameOver(reason)`: the first call latches `gameOver`, pauses all
     * growth (the one call in `calls`) and shows the game-over panel; once
     * the game is over a call changes nothing and makes no call. The pause
     * flag, the clock and the pause panel are never touched.
     */
    method GameOver(reason: string) returns (calls: seq<GrowthCall>)
      modifies this`gameOver, Panel(gameOverPanel)`active
      ensures gameOver
      ensures old(gameOver) ==> calls == [] && (gameOverPanel != null ==> gameOverPanel.active == old(gameOverPanel.active))
      ensures !old(gameOver) ==> calls == [PauseAllGrowth] && (gameOverPanel != null ==> gameOverPanel.active)
      ensures old(Valid()) ==> Valid()
    {
      if gameOver {
        return [];
      }
      gameOver := true;
      calls := [PauseAllGrowth];
      if gameOverPanel != null {
        gameOverPanel.active := true;
      }
    }

    /** `PauseGame`: set the pause flag, stop the clock and show the pause panel. */
    method PauseGame()
      modifies this`isPaused, this`timeScale, Panel(pausePanel)`active
      ensures isPaused && timeScale == 0.0
      ensures pausePanel != null ==> pausePanel.active
      ensures old(Valid()) ==> Valid()
    {
      isPaused := true;
      timeScale := 0.0;
      if pausePanel != null {
        pausePanel.active := true;
      }
    }

    /** `ResumeGame`: clear the pause flag, run the clock at normal speed and hide the pause panel. */
    method ResumeGame()
      modifies this`isPaused, this`timeScale, Panel(pausePanel)`active
      ensures !isPaused && timeScale == 1.0
      ensures pausePanel != null ==> !pausePanel.active
      ensures old(Valid()) ==> Valid()
    {
      isPaused := false;
      timeScale := 1.0;
      if pausePanel != null {
        pausePanel.active := false;
      }
    }
  }

  /**
   * However often the game is lost, growth is paused once: two `GameOver`
   * calls make exactly one `PauseAllGrowth` between them.
   */
  method GameOverTwice(game: GameManager, first: string, second: string) returns (calls: seq<GrowthCall>)
    requires !game.gameOver
    modifies game`gameOver, Panel(game.gameOverPanel)`active
    ensures calls == [PauseAllGrowth] && game.gameOver
  {
    var a := game.GameOver(first);
    var b := game.GameOver(second);
    calls := a + b;
  }
}
